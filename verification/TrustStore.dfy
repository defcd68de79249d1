/**
  The file store of trust bundles under concurrency: a lock file, a temporary file renamed into
  place, readers that take no lock, and processes that may fail or crash between any two steps.
 */
module TrustStore {
  import opened Prelude

  /** A committed state file; `fits` when it is within the size that a load accepts. */
  datatype Record = Record(version: nat, digest: string, highWater: nat, fits: bool)

  datatype Op =
    | Install(version: nat, digest: string, fits: bool, expected: Option<nat>)
    | Recover(version: nat, digest: string, fits: bool, minimumHighWater: nat)

  datatype Status = Installed | Unchanged | Stale | Conflict | Recovered

  datatype Outcome = Reported(status: Status) | LockedOut | IoFailure | Corrupt

  datatype Phase =
    | Waiting
    | Holding
    | Loaded(current: Option<Record>)
    | Writing(ino: nat)
    | Written(ino: nat)
    | Renamed
    | Finished(outcome: Outcome)
    | Crashed(inside: bool)

  datatype Proc = Proc(op: Op, phase: Phase, committed: bool)

  /** A file: the record being written to it, and whether all of it is there. */
  datatype Inode = Inode(record: Record, complete: bool)

  /** A reader holds the file it opened; `seen` is the record that was current at that moment. */
  datatype Reader = Opened(ino: nat, seen: Record) | Got(result: Result<Record, Outcome>, seen: Record)

  datatype State = State(
    lock: Option<nat>, path: Option<nat>, inodes: map<nat, Inode>, procs: map<nat, Proc>, readers: map<nat, Reader>)

  /**
    `unlocked` says whether removing the lock file succeeded where a step ends the operation; a
    failure to do so goes unnoticed.
   */
  datatype Action =
    | Begin(p: nat, op: Op)
    | Acquire(p: nat, stamped: bool)
    | GiveUp(p: nat)
    | LoadCurrent(p: nat, unlocked: bool)
    | Decide(p: nat, ino: nat, unlocked: bool)
    | FinishWrite(p: nat)
    | Rename(p: nat)
    | Report(p: nat, unlocked: bool)
    | Fail(p: nat, unlocked: bool)
    | Crash(p: nat)
    | OpenFile(r: nat)
    | ReadFile(r: nat)

  const EMPTY := State(None, None, map[], map[], map[])

  // ---- Sequential meaning ----

  /** What an installer decides from the state it loaded: report at once, or commit this record. */
  function DecideInstall(current: Option<Record>, op: Op): Result<Record, Status>
    requires op.Install?
  {
    var version := if current.Some? then Some(current.value.version) else None;
    var highWater := if current.Some? then current.value.highWater else 0;
    if op.expected.Some? && op.expected != version then Err(Conflict)
    else if op.version < highWater then Err(Stale)
    else if version == Some(op.version) then
      Err(if current.value.digest == op.digest then Unchanged else Conflict)
    else Ok(Record(op.version, op.digest, Max(highWater, op.version), op.fits))
  }

  function DecideRecover(current: Option<Record>, op: Op): Record
    requires op.Recover?
  {
    var highWater := if current.Some? then current.value.highWater else 0;
    Record(op.version, op.digest, Max(Max(highWater, op.minimumHighWater), op.version), op.fits)
  }

  /** Reading a file that a commit produced: complete and small enough, or corrupt. */
  function LoadInode(i: Inode): Result<Record, Outcome> {
    if i.complete && i.record.fits then Ok(i.record) else Err(Corrupt)
  }

  function Current(s: State): Option<Record> {
    if s.path.Some? && s.path.value in s.inodes then Some(s.inodes[s.path.value].record) else None
  }

  function HighWater(s: State): nat {
    if Current(s).Some? then Current(s).value.highWater else 0
  }

  // ---- Steps ----

  predicate Critical(ph: Phase) {
    ph.Holding? || ph.Loaded? || ph.Writing? || ph.Written? || ph.Renamed?
  }

  /** Holding the lock, or crashed while holding it. */
  predicate Holds(ph: Phase) {
    Critical(ph) || ph == Crashed(true)
  }

  function SetPhase(s: State, p: nat, ph: Phase): State
    requires p in s.procs
  {
    s.(procs := s.procs[p := s.procs[p].(phase := ph)])
  }

  /** The operation returns and its lock guard is dropped. */
  function Finish(s: State, p: nat, outcome: Outcome, unlocked: bool): State
    requires p in s.procs
  {
    SetPhase(s, p, Finished(outcome)).(lock := if unlocked then None else s.lock)
  }

  function LoadStep(s: State, p: nat, unlocked: bool): State
    requires p in s.procs && s.procs[p].phase.Holding?
  {
    if s.path.None? || s.path.value !in s.inodes then SetPhase(s, p, Loaded(None))
    else
      match LoadInode(s.inodes[s.path.value])
      case Ok(rec) => SetPhase(s, p, Loaded(Some(rec)))
      case Err(e) => if s.procs[p].op.Recover? then SetPhase(s, p, Loaded(None)) else Finish(s, p, e, unlocked)
  }

  function WriteTo(s: State, p: nat, ino: nat, rec: Record): State
    requires p in s.procs
  {
    if ino in s.inodes then s
    else SetPhase(s, p, Writing(ino)).(inodes := s.inodes[ino := Inode(rec, false)])
  }

  function DecideStep(s: State, p: nat, ino: nat, unlocked: bool): State
    requires p in s.procs && s.procs[p].phase.Loaded?
  {
    var Proc(op, ph, _) := s.procs[p];
    if op.Recover? then WriteTo(s, p, ino, DecideRecover(ph.current, op))
    else
      match DecideInstall(ph.current, op)
      case Err(status) => Finish(s, p, Reported(status), unlocked)
      case Ok(rec) => WriteTo(s, p, ino, rec)
  }

  /** A step of a process that is not in the phase for it changes nothing. */
  function ProcStep(s: State, p: nat, a: Action): State
    requires p in s.procs
  {
    var proc := s.procs[p];
    match a
    case Acquire(_, stamped) =>
      if proc.phase.Waiting? && s.lock == None then
        SetPhase(s, p, if stamped then Holding else Finished(IoFailure)).(lock := Some(p))
      else s
    case GiveUp(_) => if proc.phase.Waiting? && s.lock.Some? then SetPhase(s, p, Finished(LockedOut)) else s
    case LoadCurrent(_, unlocked) => if proc.phase.Holding? then LoadStep(s, p, unlocked) else s
    case Decide(_, ino, unlocked) => if proc.phase.Loaded? then DecideStep(s, p, ino, unlocked) else s
    case FinishWrite(_) =>
      if proc.phase.Writing? && proc.phase.ino in s.inodes then
        var ino := proc.phase.ino;
        SetPhase(s, p, Written(ino)).(inodes := s.inodes[ino := s.inodes[ino].(complete := true)])
      else s
    case Rename(_) =>
      if proc.phase.Written? then
        s.(path := Some(proc.phase.ino), procs := s.procs[p := Proc(proc.op, Renamed, true)])
      else s
    case Report(_, unlocked) =>
      if proc.phase.Renamed? then Finish(s, p, Reported(if proc.op.Install? then Installed else Recovered), unlocked)
      else s
    case Fail(_, unlocked) => if Critical(proc.phase) then Finish(s, p, IoFailure, unlocked) else s
    case Crash(_) =>
      if proc.phase.Finished? || proc.phase.Crashed? then s else SetPhase(s, p, Crashed(Critical(proc.phase)))
    case _ => s
  }

  function OpenStep(s: State, r: nat): State {
    if r in s.readers || s.path.None? || s.path.value !in s.inodes then s
    else s.(readers := s.readers[r := Opened(s.path.value, s.inodes[s.path.value].record)])
  }

  function ReadStep(s: State, r: nat): State {
    if r in s.readers && s.readers[r].Opened? && s.readers[r].ino in s.inodes then
      s.(readers := s.readers[r := Got(LoadInode(s.inodes[s.readers[r].ino]), s.readers[r].seen)])
    else s
  }

  function Step(s: State, a: Action): State {
    match a
    case Begin(p, op) => if p in s.procs then s else s.(procs := s.procs[p := Proc(op, Waiting, false)])
    case OpenFile(r) => OpenStep(s, r)
    case ReadFile(r) => ReadStep(s, r)
    case _ => if a.p in s.procs then ProcStep(s, a.p, a) else s
  }

  function Exec(actions: seq<Action>): State {
    if actions == [] then EMPTY else Step(Exec(actions[..|actions| - 1]), actions[|actions| - 1])
  }

  // ---- Invariants ----

  /** What a load makes of a committed record: one too large to load reads as corrupt. */
  function Visible(current: Option<Record>): Option<Record> {
    if current.Some? && current.value.fits then current else None
  }

  /** The sequential decision of this operation on the current record is to commit `rec`. */
  predicate Decides(current: Option<Record>, op: Op, rec: Record) {
    if op.Install? then Visible(current) == current && DecideInstall(current, op) == Ok(rec)
    else rec == DecideRecover(Visible(current), op)
  }

  ghost predicate FileInv(s: State) {
    && (s.path.Some? ==>
          && s.path.value in s.inodes && s.inodes[s.path.value].complete
          && s.inodes[s.path.value].record.version <= s.inodes[s.path.value].record.highWater)
    && forall r :: r in s.readers ==> ReaderInv(s, s.readers[r])
  }

  ghost predicate ReaderInv(s: State, rd: Reader) {
    match rd
    case Opened(ino, seen) => ino in s.inodes && s.inodes[ino] == Inode(seen, true)
    case Got(result, seen) => result == LoadInode(Inode(seen, true))
  }

  ghost predicate ProcInv(s: State, p: nat)
    requires p in s.procs
  {
    var Proc(op, ph, committed) := s.procs[p];
    && (Holds(ph) ==> s.lock == Some(p))
    && (ph.Waiting? || ph.Holding? || ph.Loaded? || ph.Writing? || ph.Written? ==> !committed)
    && (ph.Renamed? || ph == Finished(Reported(Installed)) ==> committed)
    && (ph.Loaded? ==> ph.current == Visible(Current(s)) && (op.Install? ==> Visible(Current(s)) == Current(s)))
    && (ph.Writing? || ph.Written? ==>
          && ph.ino in s.inodes && s.path != Some(ph.ino)
          && s.inodes[ph.ino].complete == ph.Written?
          && Decides(Current(s), op, s.inodes[ph.ino].record))
  }

  ghost predicate Inv(s: State) {
    FileInv(s) && forall p :: p in s.procs ==> ProcInv(s, p)
  }

  ghost predicate NoRecovery(s: State) {
    forall p :: p in s.procs ==> s.procs[p].op.Install?
  }

  ghost predicate CommittedExpecting(s: State, p: nat, v: nat) {
    p in s.procs && s.procs[p].committed && s.procs[p].op.Install? && s.procs[p].op.expected == Some(v)
  }

  /** Of the installers that expected version v at most one ever renamed its file into place, and v is past. */
  ghost predicate OnceInv(s: State) {
    && (forall p: nat, v: nat :: CommittedExpecting(s, p, v) ==> Current(s).Some? && v < Current(s).value.version)
    && (forall p: nat, q: nat, v: nat :: CommittedExpecting(s, p, v) && CommittedExpecting(s, q, v) ==> p == q)
  }

  /** Steps that change neither the path nor any file but a fresh one keep every other process. */
  lemma OthersKept(s: State, s': State, p: nat)
    requires Inv(s) && p in s'.procs && s'.procs.Keys == s.procs.Keys + {p}
    requires forall q :: q in s.procs && q != p ==> s'.procs[q] == s.procs[q]
    requires s'.path == s.path
    requires forall i :: i in s.inodes ==> i in s'.inodes
    requires forall i :: i in s.inodes ==>
               s'.inodes[i] == s.inodes[i] || (s'.inodes[i] == s.inodes[i].(complete := true) && s.lock == Some(p))
    requires s'.lock == s.lock || s.lock == None || s.lock == Some(p)
    requires s'.readers == s.readers
    requires ProcInv(s', p)
    ensures Inv(s')
  {
    assert Current(s') == Current(s);
    forall q | q in s'.procs ensures ProcInv(s', q) {
      if q != p {
        assert ProcInv(s, q);
      }
    }
    forall r | r in s'.readers ensures ReaderInv(s', s'.readers[r]) {
      assert ReaderInv(s, s.readers[r]);
    }
  }

  lemma KeepsSimple(s: State, p: nat, a: Action)
    requires Inv(s) && p in s.procs && !a.Rename? && !a.Decide? && !a.LoadCurrent? && !a.FinishWrite?
    ensures Inv(ProcStep(s, p, a))
  {
    assert ProcInv(s, p);
    if ProcStep(s, p, a) != s {
      OthersKept(s, ProcStep(s, p, a), p);
    }
  }

  lemma KeepsLoad(s: State, p: nat, unlocked: bool)
    requires Inv(s) && p in s.procs && s.procs[p].phase.Holding?
    ensures Inv(LoadStep(s, p, unlocked))
  {
    assert ProcInv(s, p);
    OthersKept(s, LoadStep(s, p, unlocked), p);
  }

  lemma KeepsWriteTo(s: State, p: nat, ino: nat, rec: Record)
    requires Inv(s) && p in s.procs && s.procs[p].phase.Loaded? && Decides(Current(s), s.procs[p].op, rec)
    ensures Inv(WriteTo(s, p, ino, rec))
  {
    assert ProcInv(s, p);
    var s' := WriteTo(s, p, ino, rec);
    if s' != s {
      assert Current(s') == Current(s);
      assert ProcInv(s', p);
      OthersKept(s, s', p);
    }
  }

  lemma KeepsFinish(s: State, p: nat, outcome: Outcome, unlocked: bool)
    requires Inv(s) && p in s.procs && Critical(s.procs[p].phase)
    requires outcome == Reported(Installed) ==> s.procs[p].committed
    ensures Inv(Finish(s, p, outcome, unlocked))
  {
    assert ProcInv(s, p);
    OthersKept(s, Finish(s, p, outcome, unlocked), p);
  }

  lemma KeepsDecide(s: State, p: nat, ino: nat, unlocked: bool)
    requires Inv(s) && p in s.procs && s.procs[p].phase.Loaded?
    ensures Inv(DecideStep(s, p, ino, unlocked))
  {
    assert ProcInv(s, p);
    var Proc(op, ph, _) := s.procs[p];
    if op.Recover? {
      KeepsWriteTo(s, p, ino, DecideRecover(ph.current, op));
    } else {
      match DecideInstall(ph.current, op)
      case Err(status) => KeepsFinish(s, p, Reported(status), unlocked);
      case Ok(rec) => KeepsWriteTo(s, p, ino, rec);
    }
  }

  lemma KeepsFinishWrite(s: State, p: nat)
    requires Inv(s) && p in s.procs
    ensures Inv(ProcStep(s, p, FinishWrite(p)))
  {
    assert ProcInv(s, p);
    var s' := ProcStep(s, p, FinishWrite(p));
    if s' != s {
      assert Current(s') == Current(s);
      OthersKept(s, s', p);
    }
  }

  lemma KeepsRename(s: State, p: nat)
    requires Inv(s) && p in s.procs
    ensures Inv(ProcStep(s, p, Rename(p)))
  {
    assert ProcInv(s, p);
    var s' := ProcStep(s, p, Rename(p));
    if s' != s {
      forall q | q in s'.procs ensures ProcInv(s', q) {
        assert ProcInv(s, q);
      }
      forall r | r in s'.readers ensures ReaderInv(s', s'.readers[r]) {
        assert ReaderInv(s, s.readers[r]);
      }
    }
  }

  lemma KeepsReaders(s: State, r: nat)
    requires Inv(s)
    ensures Inv(OpenStep(s, r)) && Inv(ReadStep(s, r))
  {
    var o, d := OpenStep(s, r), ReadStep(s, r);
    forall p | p in s.procs ensures ProcInv(o, p) && ProcInv(d, p) {
      assert ProcInv(s, p);
    }
    forall x | x in o.readers ensures ReaderInv(o, o.readers[x]) {
      if x in s.readers { assert ReaderInv(s, s.readers[x]); }
    }
    forall x | x in d.readers ensures ReaderInv(d, d.readers[x]) {
      assert ReaderInv(s, s.readers[x]);
    }
  }

  lemma KeepsInv(s: State, a: Action)
    requires Inv(s)
    ensures Inv(Step(s, a))
  {
    match a
    case Begin(p, op) => if p !in s.procs { OthersKept(s, Step(s, a), p); }
    case OpenFile(r) => KeepsReaders(s, r);
    case ReadFile(r) => KeepsReaders(s, r);
    case LoadCurrent(p, unlocked) =>
      if p in s.procs && s.procs[p].phase.Holding? { KeepsLoad(s, p, unlocked); }
    case Decide(p, ino, unlocked) =>
      if p in s.procs && s.procs[p].phase.Loaded? { KeepsDecide(s, p, ino, unlocked); }
    case FinishWrite(p) => if p in s.procs { KeepsFinishWrite(s, p); }
    case Rename(p) => if p in s.procs { KeepsRename(s, p); }
    case _ => if a.p in s.procs { KeepsSimple(s, a.p, a); }
  }

  // ---- What every step does to the stored record ----

  predicate AtRename(s: State, a: Action) {
    a.Rename? && a.p in s.procs && s.procs[a.p].phase.Written?
  }

  /**
    Every commit takes effect at one instant: only a rename changes the current record, and the new
    one is what the operation decides, alone, from the record it replaces.
   */
  lemma CommitIsAtomic(s: State, a: Action)
    requires Inv(s) && Current(Step(s, a)) != Current(s)
    ensures AtRename(s, a) && Current(Step(s, a)).Some?
    ensures Decides(Current(s), s.procs[a.p].op, Current(Step(s, a)).value)
  {
    if !a.OpenFile? && !a.ReadFile? && a.p in s.procs {
      assert ProcInv(s, a.p);
    }
  }

  /** An installer that reports without committing reports the decision on the record then current. */
  lemma ReportIsAtomic(s: State, p: nat, ino: nat, unlocked: bool)
    requires Inv(s) && p in s.procs && s.procs[p].phase.Loaded? && s.procs[p].op.Install?
    requires Step(s, Decide(p, ino, unlocked)).procs[p].phase.Finished?
    ensures var s' := Step(s, Decide(p, ino, unlocked));
            && DecideInstall(Current(s), s.procs[p].op).Err?
            && s'.procs[p].phase.outcome == Reported(DecideInstall(Current(s), s.procs[p].op).error)
            && Current(s') == Current(s)
  {
    assert ProcInv(s, p);
  }

  /** The mark falls exactly when a recovery replaces a record too large to load by a lower one. */
  lemma MarkFallsExactly(s: State, a: Action)
    requires Inv(s)
    ensures HighWater(Step(s, a)) < HighWater(s) <==>
            && AtRename(s, a) && s.procs[a.p].op.Recover?
            && Max(s.procs[a.p].op.minimumHighWater, s.procs[a.p].op.version) < HighWater(s)
            && !Current(s).value.fits
  {
    if Current(Step(s, a)) != Current(s) {
      CommitIsAtomic(s, a);
    } else if AtRename(s, a) {
      assert ProcInv(s, a.p);
    }
  }

  /** Without recovery neither the mark nor the version falls. */
  lemma NothingFalls(s: State, a: Action)
    requires Inv(s) && NoRecovery(s)
    ensures HighWater(s) <= HighWater(Step(s, a))
    ensures Current(s).Some? ==>
              Current(Step(s, a)).Some? && Current(s).value.version <= Current(Step(s, a)).value.version
  {
    if Current(Step(s, a)) != Current(s) {
      CommitIsAtomic(s, a);
    }
  }

  lemma KeepsOnce(s: State, a: Action)
    requires Inv(s) && OnceInv(s) && NoRecovery(s)
    ensures OnceInv(Step(s, a))
  {
    var s' := Step(s, a);
    if Current(s') != Current(s) {
      CommitIsAtomic(s, a);
      forall q: nat, v: nat | CommittedExpecting(s', q, v)
        ensures v < Current(s').value.version && (CommittedExpecting(s, q, v) || q == a.p)
      {
        if q != a.p {
          assert CommittedExpecting(s, q, v);
        }
      }
    } else {
      CommitsUnchanged(s, a);
    }
  }

  /** A step that leaves the current record alone commits nothing, or commits what changes nothing. */
  lemma CommitsUnchanged(s: State, a: Action)
    requires Inv(s) && Current(Step(s, a)) == Current(s)
    ensures forall q: nat, v: nat :: CommittedExpecting(Step(s, a), q, v) ==> CommittedExpecting(s, q, v)
  {
    forall q: nat, v: nat | CommittedExpecting(Step(s, a), q, v) ensures CommittedExpecting(s, q, v) {
      if a.Rename? && a.p in s.procs && s.procs[a.p].phase.Written? {
        assert ProcInv(s, a.p);
      }
    }
  }

  // ---- Every run ----

  lemma {:induction false} ExecInv(actions: seq<Action>)
    ensures Inv(Exec(actions))
  {
    if actions != [] {
      var n := |actions| - 1;
      ExecInv(actions[..n]);
      KeepsInv(Exec(actions[..n]), actions[n]);
    }
  }

  /** Readers see a complete record, the one in place when they opened the file; only size can spoil it. */
  lemma ReadersSeeWholeRecords(actions: seq<Action>, r: nat)
    requires r in Exec(actions).readers && Exec(actions).readers[r].Got?
    ensures var Got(result, seen) := Exec(actions).readers[r];
            result == (if seen.fits then Ok(seen) else Err(Corrupt))
  {
    ExecInv(actions);
    var s := Exec(actions);
    assert ReaderInv(s, s.readers[r]);
  }

  /** At most one process is between taking the lock and giving it up, or crashed there. */
  lemma MutualExclusion(actions: seq<Action>, p: nat, q: nat)
    requires p in Exec(actions).procs && Holds(Exec(actions).procs[p].phase)
    requires q in Exec(actions).procs && Holds(Exec(actions).procs[q].phase)
    ensures p == q
  {
    ExecInv(actions);
    assert ProcInv(Exec(actions), p) && ProcInv(Exec(actions), q);
  }

  lemma CrashedStays(s: State, a: Action, p: nat)
    requires p in s.procs && s.procs[p].phase == Crashed(true)
    ensures p in Step(s, a).procs && Step(s, a).procs[p].phase == Crashed(true)
  {
  }

  lemma {:induction false} CrashedForGood(actions: seq<Action>, more: seq<Action>, p: nat)
    requires p in Exec(actions).procs && Exec(actions).procs[p].phase == Crashed(true)
    ensures p in Exec(actions + more).procs && Exec(actions + more).procs[p].phase == Crashed(true)
    decreases |more|
  {
    if more == [] {
      assert actions + more == actions;
    } else {
      var n := |more| - 1;
      var all := actions + more;
      assert all[..|all| - 1] == actions + more[..n] && all[|all| - 1] == more[n];
      CrashedForGood(actions, more[..n], p);
      CrashedStays(Exec(actions + more[..n]), more[n], p);
    }
  }

  /** After a process has crashed holding the lock, no process ever holds it again. */
  lemma CrashedHolderBlocks(actions: seq<Action>, more: seq<Action>, p: nat, q: nat)
    requires p in Exec(actions).procs && Exec(actions).procs[p].phase == Crashed(true)
    requires q in Exec(actions + more).procs
    ensures !Critical(Exec(actions + more).procs[q].phase)
  {
    CrashedForGood(actions, more, p);
    if Holds(Exec(actions + more).procs[q].phase) {
      MutualExclusion(actions + more, p, q);
    }
  }

  /** The stored version never exceeds the stored mark. */
  lemma VersionWithinMark(actions: seq<Action>)
    ensures Current(Exec(actions)).Some? ==> Current(Exec(actions)).value.version <= HighWater(Exec(actions))
  {
    ExecInv(actions);
  }

  ghost predicate InstallsOnly(actions: seq<Action>) {
    forall i :: 0 <= i < |actions| && actions[i].Begin? ==> actions[i].op.Install?
  }

  lemma {:induction false} ExecNoRecovery(actions: seq<Action>)
    requires InstallsOnly(actions)
    ensures NoRecovery(Exec(actions)) && OnceInv(Exec(actions))
  {
    if actions != [] {
      var n := |actions| - 1;
      var s := Exec(actions[..n]);
      ExecNoRecovery(actions[..n]);
      ExecInv(actions[..n]);
      KeepsOnce(s, actions[n]);
      StepKeepsOps(s, actions[n]);
    }
  }

  lemma StepKeepsOps(s: State, a: Action)
    requires NoRecovery(s) && (a.Begin? ==> a.op.Install?)
    ensures NoRecovery(Step(s, a))
  {
  }

  /** Over a whole run of installers the stored mark and version only rise. */
  lemma {:induction false} MarkNeverFallsInRun(actions: seq<Action>, more: seq<Action>)
    requires InstallsOnly(actions + more)
    ensures HighWater(Exec(actions)) <= HighWater(Exec(actions + more))
    ensures Current(Exec(actions)).Some? ==>
              && Current(Exec(actions + more)).Some?
              && Current(Exec(actions)).value.version <= Current(Exec(actions + more)).value.version
    decreases |more|
  {
    if more == [] {
      assert actions + more == actions;
    } else {
      var n := |more| - 1;
      var all := actions + more;
      assert all[..|all| - 1] == actions + more[..n] && all[|all| - 1] == more[n];
      MarkNeverFallsInRun(actions, more[..n]);
      ExecInv(actions + more[..n]);
      ExecNoRecovery(actions + more[..n]);
      NothingFalls(Exec(actions + more[..n]), more[n]);
    }
  }

  ghost predicate ReportedExpecting(s: State, p: nat, v: nat) {
    p in s.procs && s.procs[p].op.Install? && s.procs[p].op.expected == Some(v)
    && s.procs[p].phase == Finished(Reported(Installed))
  }

  /** Of all installers that expected the same version at most one reports that it installed. */
  lemma AtMostOneInstalled(actions: seq<Action>, p: nat, q: nat, v: nat)
    requires InstallsOnly(actions)
    requires var s := Exec(actions);
             ReportedExpecting(s, p, v) && ReportedExpecting(s, q, v)
    ensures p == q
  {
    ExecInv(actions);
    ExecNoRecovery(actions);
    var s := Exec(actions);
    assert ProcInv(s, p) && ProcInv(s, q);
    assert CommittedExpecting(s, p, v) && CommittedExpecting(s, q, v);
  }

  // ---- What a report means ----

  /** No version was expected, or the one of the current record. */
  ghost predicate ExpectationHolds(op: Op, c: Option<Record>)
    requires op.Install?
  {
    op.expected == None || (c.Some? && op.expected == Some(c.value.version))
  }

  /** What each report says of the record that was current. */
  ghost predicate Means(status: Status, op: Op, c: Option<Record>)
    requires op.Install?
  {
    match status
    case Conflict =>
      || !ExpectationHolds(op, c)
      || (c.Some? && op.version == c.value.version && op.version >= c.value.highWater && op.digest != c.value.digest)
    case Stale => ExpectationHolds(op, c) && c.Some? && op.version < c.value.highWater
    case Unchanged =>
      && ExpectationHolds(op, c) && c.Some? && op.version >= c.value.highWater
      && op.version == c.value.version && op.digest == c.value.digest
    case _ => false
  }

  ghost function MarkOf(c: Option<Record>): nat {
    if c.Some? then c.value.highWater else 0
  }

  /** The record an installer leaves in place of c. */
  ghost predicate Replaces(rec: Record, op: Op, c: Option<Record>)
    requires op.Install?
  {
    && rec == Record(op.version, op.digest, Max(MarkOf(c), op.version), op.fits)
    && ExpectationHolds(op, c) && (c.Some? ==> op.version >= c.value.highWater && op.version != c.value.version)
  }

  /** The record a recovery leaves in place of c; one too large to load counts for nothing. */
  ghost predicate Recovers(rec: Record, op: Op, c: Option<Record>)
    requires op.Recover?
  {
    var mark := if c.Some? && c.value.fits then c.value.highWater else 0;
    rec == Record(op.version, op.digest, Max(Max(mark, op.minimumHighWater), op.version), op.fits)
  }

  lemma DecisionMeans(op: Op, c: Option<Record>)
    requires op.Install?
    ensures forall status :: DecideInstall(c, op) == Err(status) <==> Means(status, op, c)
    ensures DecideInstall(c, op).Ok? <==> !Means(Conflict, op, c) && !Means(Stale, op, c) && !Means(Unchanged, op, c)
    ensures DecideInstall(c, op).Ok? ==> Replaces(DecideInstall(c, op).value, op, c)
  {
  }

  /**
    In every run, an installer that decides while c is current reports Conflict, Stale or Unchanged exactly
    when that is true of c, and otherwise starts to write its own record, unless the name it drew is taken.
   */
  lemma ReportsExactly(actions: seq<Action>, p: nat, ino: nat, unlocked: bool)
    requires p in Exec(actions).procs && Exec(actions).procs[p].phase.Loaded? && Exec(actions).procs[p].op.Install?
    ensures var s, s' := Exec(actions), Step(Exec(actions), Decide(p, ino, unlocked));
            var op, c := s.procs[p].op, Current(s);
            && (forall status :: s'.procs[p].phase == Finished(Reported(status)) <==> Means(status, op, c))
            && (!Means(Conflict, op, c) && !Means(Stale, op, c) && !Means(Unchanged, op, c) && ino !in s.inodes ==>
                  s'.procs[p].phase == Writing(ino) && Replaces(s'.inodes[ino].record, op, c))
  {
    ExecInv(actions);
    assert ProcInv(Exec(actions), p);
    DecisionMeans(Exec(actions).procs[p].op, Current(Exec(actions)));
  }

  /** The k-th action was the decision of p, on a record of which the report is true. */
  ghost predicate ReportedAt(actions: seq<Action>, p: nat, op: Op, status: Status, k: nat)
    requires op.Install?
  {
    && k < |actions| && actions[k].Decide? && actions[k].p == p
    && Means(status, op, Current(Exec(actions[..k])))
  }

  /** Every report of Conflict, Stale or Unchanged in a run was true when it was decided. */
  lemma {:induction false} ReportIsTrue(actions: seq<Action>, p: nat, status: Status)
    requires p in Exec(actions).procs && Exec(actions).procs[p].op.Install?
    requires Exec(actions).procs[p].phase == Finished(Reported(status)) && status != Installed
    ensures exists k: nat :: ReportedAt(actions, p, Exec(actions).procs[p].op, status, k)
    decreases |actions|
  {
    var n := |actions| - 1;
    var front, op := actions[..n], Exec(actions).procs[p].op;
    var s := Exec(front);
    if p in s.procs && s.procs[p].phase == Finished(Reported(status)) {
      ReportIsTrue(front, p, status);
      var k: nat :| ReportedAt(front, p, op, status, k);
      assert front[..k] == actions[..k];
      assert ReportedAt(actions, p, op, status, k);
    } else {
      OnlyDecisionReports(s, actions[n], p, status);
      ReportsExactly(front, p, actions[n].ino, actions[n].unlocked);
      assert ReportedAt(actions, p, op, status, n);
    }
  }

  /** Only a decision brings an installer to such a report. */
  lemma OnlyDecisionReports(s: State, a: Action, p: nat, status: Status)
    requires p in Step(s, a).procs && Step(s, a).procs[p].op.Install? && status != Installed
    requires Step(s, a).procs[p].phase == Finished(Reported(status))
    requires p in s.procs ==> s.procs[p].phase != Finished(Reported(status))
    ensures a.Decide? && a.p == p && p in s.procs && s.procs[p].phase.Loaded?
    ensures s.procs[p].op == Step(s, a).procs[p].op
  {
  }

  /** The k-th action was the rename of p, and what it put in place of the record then current is its own. */
  ghost predicate CommittedAt(actions: seq<Action>, p: nat, op: Op, k: nat) {
    && k < |actions| && actions[k] == Rename(p)
    && var c, c' := Current(Exec(actions[..k])), Current(Exec(actions[..k + 1]));
    c'.Some? && if op.Install? then Replaces(c'.value, op, c) else Recovers(c'.value, op, c)
  }

  predicate Done(ph: Phase) {
    ph.Renamed? || ph == Finished(Reported(Installed)) || ph == Finished(Reported(Recovered))
  }

  /** A process that reports Installed or Recovered renamed its own record into place, as its operation says. */
  lemma {:induction false} CommitIsTrue(actions: seq<Action>, p: nat)
    requires p in Exec(actions).procs && Done(Exec(actions).procs[p].phase)
    ensures exists k: nat :: CommittedAt(actions, p, Exec(actions).procs[p].op, k)
    decreases |actions|
  {
    var n := |actions| - 1;
    var front, op := actions[..n], Exec(actions).procs[p].op;
    var s := Exec(front);
    if p in s.procs && Done(s.procs[p].phase) {
      CommitIsTrue(front, p);
      SameOp(s, actions[n], p);
      var k: nat :| CommittedAt(front, p, op, k);
      assert front[..k] == actions[..k] && front[..k + 1] == actions[..k + 1];
      assert CommittedAt(actions, p, op, k);
    } else {
      LastStepCommits(actions, p);
      assert actions[..n + 1] == actions;
      assert CommittedAt(actions, p, op, n);
    }
  }

  lemma SameOp(s: State, a: Action, p: nat)
    requires p in s.procs
    ensures p in Step(s, a).procs && Step(s, a).procs[p].op == s.procs[p].op
  {
  }

  lemma LastStepCommits(actions: seq<Action>, p: nat)
    requires actions != [] && p in Exec(actions).procs && Done(Exec(actions).procs[p].phase)
    requires var s := Exec(actions[..|actions| - 1]); p in s.procs ==> !Done(s.procs[p].phase)
    ensures var s, op, c' := Exec(actions[..|actions| - 1]), Exec(actions).procs[p].op, Current(Exec(actions));
            && actions[|actions| - 1] == Rename(p) && c'.Some?
            && if op.Install? then Replaces(c'.value, op, Current(s)) else Recovers(c'.value, op, Current(s))
  {
    var front, a := actions[..|actions| - 1], actions[|actions| - 1];
    var s := Exec(front);
    ExecInv(front);
    OnlyRenameIsDone(s, a, p);
    assert ProcInv(s, p);
    if s.procs[p].op.Install? {
      DecisionMeans(s.procs[p].op, Current(s));
    }
  }

  lemma OnlyRenameIsDone(s: State, a: Action, p: nat)
    requires p in Step(s, a).procs && Done(Step(s, a).procs[p].phase) && (p in s.procs ==> !Done(s.procs[p].phase))
    ensures a == Rename(p) && p in s.procs && s.procs[p].phase.Written?
  {
  }

  // ---- What can still be done ----

  /** A loader with the lock: an installer stops at a record too large to load, a recovery goes on without it. */
  lemma LoadsExactly(actions: seq<Action>, p: nat, unlocked: bool)
    requires p in Exec(actions).procs && Exec(actions).procs[p].phase.Holding?
    ensures var s, s' := Exec(actions), Step(Exec(actions), LoadCurrent(p, unlocked));
            var c := Current(s);
            s'.procs[p].phase ==
              if c.None? || c.value.fits then Loaded(c)
              else if s.procs[p].op.Install? then Finished(Corrupt)
              else Loaded(None)
  {
    ExecInv(actions);
  }

  lemma RecoveryWrites(s: State, p: nat, ino: nat)
    requires p in s.procs && s.procs[p].phase.Loaded? && s.procs[p].op.Recover? && ino !in s.inodes
    ensures var s' := Step(Step(Step(s, Decide(p, ino, true)), FinishWrite(p)), Rename(p));
            && Current(s') == Some(DecideRecover(s.procs[p].phase.current, s.procs[p].op))
            && s'.procs[p].phase == Renamed
  {
    var s1 := Step(s, Decide(p, ino, true));
    assert s1.procs[p].phase == Writing(ino) && s1.procs[p].op == s.procs[p].op;
    var s2 := Step(s1, FinishWrite(p));
    assert s2.procs[p].phase == Written(ino) && s2.inodes[ino].record == s1.inodes[ino].record;
  }

  lemma ExecSnoc(actions: seq<Action>, a: Action)
    ensures Exec(actions + [a]) == Step(Exec(actions), a)
  {
    assert (actions + [a])[..|actions|] == actions;
  }

  /** Whatever is stored, too large to load or not, a recovery that holds the lock can replace it. */
  lemma RecoveryCanComplete(actions: seq<Action>, p: nat, ino: nat)
    requires p in Exec(actions).procs && Exec(actions).procs[p].phase.Holding? && Exec(actions).procs[p].op.Recover?
    requires ino !in Exec(actions).inodes
    ensures var run := actions + [LoadCurrent(p, true)] + [Decide(p, ino, true)] + [FinishWrite(p)] + [Rename(p)];
            && p in Exec(run).procs && Exec(run).procs[p].phase == Renamed && Current(Exec(run)).Some?
            && Recovers(Current(Exec(run)).value, Exec(actions).procs[p].op, Current(Exec(actions)))
  {
    var a1 := actions + [LoadCurrent(p, true)];
    var a2 := a1 + [Decide(p, ino, true)];
    var a3 := a2 + [FinishWrite(p)];
    ExecSnoc(actions, LoadCurrent(p, true));
    ExecSnoc(a1, Decide(p, ino, true));
    ExecSnoc(a2, FinishWrite(p));
    ExecSnoc(a3, Rename(p));
    LoadsExactly(actions, p, true);
    LoadKeeps(Exec(actions), p);
    RecoveryWrites(Exec(a1), p, ino);
  }

  lemma LoadKeeps(s: State, p: nat)
    requires p in s.procs
    ensures var s' := Step(s, LoadCurrent(p, true));
            s'.inodes == s.inodes && p in s'.procs && s'.procs[p].op == s.procs[p].op
  {
  }
}
