/** Any number of `daemon start` commands interleaving around the lock file, one file operation at a time. */
module DaemonStart {
  import opened Prelude

  type Pid = nat
  type CommandId = nat

  datatype Outcome = AlreadyRunning | Started(pid: Pid) | Refused | Failed

  /** Where a command is between two file or process operations. */
  datatype Phase =
    | Idle
    | Locked
    | HasRead(existing: Option<Pid>)
    | Stale
    | PidFileGone
    | Cleared
    | Spawned(pid: Pid)
    | PidWritten(pid: Pid)
    | Waiting(pid: Pid)
    | SawAlive(pid: Pid)
    | StartupFailed(pid: Pid)
    | Terminated
    | TerminatedPidFileGone
    | Releasing(outcome: Outcome)
    | Finished(outcome: Outcome)

  /**
   A file that is missing or unreadable is `None`. `daemons` are the live processes started by these commands;
   `signalled` are those the startup-failure path has sent SIGTERM. `alive` includes unrelated processes, so a
   process id may be reused. `portsTaken` is whether something listens on both configured ports.
   */
  datatype World = World(
    lockFile: bool, pidFile: Option<Pid>, stateFile: Option<Pid>, alive: set<Pid>, daemons: set<Pid>,
    signalled: set<Pid>, portsTaken: bool, phases: map<CommandId, Phase>)

  function PhaseOf(w: World, c: CommandId): Phase { if c in w.phases then w.phases[c] else Idle }

  function Go(w: World, c: CommandId, p: Phase): World { w.(phases := w.phases[c := p]) }

  predicate PastLock(p: Phase) { !p.Idle? && !p.Finished? }

  /** `readDaemonState`: the state file, else the pid file. */
  function Recorded(w: World): Option<Pid> { if w.stateFile.Some? then w.stateFile else w.pidFile }

  datatype Step =
    | Acquire(c: CommandId) | Refuse(c: CommandId)
    | Read(c: CommandId) | FindRunning(c: CommandId) | FindStale(c: CommandId)
    | RemovePidFile(c: CommandId) | RemoveStateFile(c: CommandId)
    | GiveUp(c: CommandId) | Spawn(c: CommandId, pid: Pid)
    | WritePidFile(c: CommandId) | WriteStateFile(c: CommandId)
    | SeeAlive(c: CommandId) | SeeFree(c: CommandId) | SeeReady(c: CommandId)
    | SeeFailure(c: CommandId) | Terminate(c: CommandId)
    | Release(c: CommandId)
    | Exits(pid: Pid) | OtherStarts(pid: Pid) | PortsChange(taken: bool)

  /**
   `GiveUp` covers a configuration error, a port in use and a child without a pid; `SeeFailure` a dead process and
   the timeout.
   */
  predicate Enabled(w: World, s: Step) {
    match s
    case Acquire(c) => PhaseOf(w, c).Idle? && !w.lockFile
    case Refuse(c) => PhaseOf(w, c).Idle? && w.lockFile
    case Read(c) => PhaseOf(w, c).Locked?
    case FindRunning(c) =>
      var p := PhaseOf(w, c); p.HasRead? && p.existing.Some? && p.existing.value in w.alive
    case FindStale(c) =>
      var p := PhaseOf(w, c); p.HasRead? && !(p.existing.Some? && p.existing.value in w.alive)
    case RemovePidFile(c) => PhaseOf(w, c).Stale? || PhaseOf(w, c).Terminated?
    case RemoveStateFile(c) => PhaseOf(w, c).PidFileGone? || PhaseOf(w, c).TerminatedPidFileGone?
    case GiveUp(c) => PhaseOf(w, c).Cleared?
    case Spawn(c, pid) => PhaseOf(w, c).Cleared? && pid !in w.alive
    case WritePidFile(c) => PhaseOf(w, c).Spawned?
    case WriteStateFile(c) => PhaseOf(w, c).PidWritten?
    case SeeAlive(c) => PhaseOf(w, c).Waiting? && PhaseOf(w, c).pid in w.alive
    case SeeFree(c) => PhaseOf(w, c).SawAlive? && !w.portsTaken
    case SeeReady(c) => PhaseOf(w, c).SawAlive? && w.portsTaken
    case SeeFailure(c) => PhaseOf(w, c).Waiting?
    case Terminate(c) => PhaseOf(w, c).StartupFailed?
    case Release(c) => PhaseOf(w, c).Releasing?
    case Exits(pid) => pid in w.alive
    case OtherStarts(pid) => pid !in w.alive
    case PortsChange(_) => true
  }

  function Apply(w: World, s: Step): World
    requires Enabled(w, s)
  {
    match s
    case Acquire(c) => Go(w.(lockFile := true), c, Locked)
    case Refuse(c) => Go(w, c, Finished(Refused))
    case Read(c) => Go(w, c, HasRead(Recorded(w)))
    case FindRunning(c) => Go(w, c, Releasing(AlreadyRunning))
    case FindStale(c) => Go(w, c, Stale)
    case RemovePidFile(c) =>
      Go(w.(pidFile := None), c, if PhaseOf(w, c).Stale? then PidFileGone else TerminatedPidFileGone)
    case RemoveStateFile(c) =>
      Go(w.(stateFile := None), c, if PhaseOf(w, c).PidFileGone? then Cleared else Releasing(Failed))
    case GiveUp(c) => Go(w, c, Releasing(Failed))
    case Spawn(c, pid) =>
      Go(w.(alive := w.alive + {pid}, daemons := w.daemons + {pid}, signalled := w.signalled - {pid}), c, Spawned(pid))
    case WritePidFile(c) => Go(w.(pidFile := Some(PhaseOf(w, c).pid)), c, PidWritten(PhaseOf(w, c).pid))
    case WriteStateFile(c) => Go(w.(stateFile := Some(PhaseOf(w, c).pid)), c, Waiting(PhaseOf(w, c).pid))
    case SeeAlive(c) => Go(w, c, SawAlive(PhaseOf(w, c).pid))
    case SeeFree(c) => Go(w, c, Waiting(PhaseOf(w, c).pid))
    case SeeReady(c) => Go(w, c, Releasing(Started(PhaseOf(w, c).pid)))
    case SeeFailure(c) => Go(w, c, StartupFailed(PhaseOf(w, c).pid))
    case Terminate(c) => Go(w.(signalled := w.signalled + {PhaseOf(w, c).pid}), c, Terminated)
    case Release(c) => Go(w.(lockFile := false), c, Finished(PhaseOf(w, c).outcome))
    case Exits(pid) => w.(alive := w.alive - {pid}, daemons := w.daemons - {pid})
    case OtherStarts(pid) => w.(alive := w.alive + {pid})
    case PortsChange(taken) => w.(portsTaken := taken)
  }

  // ---- the invariant ----

  /** Live daemons that the startup-failure path has not signalled. */
  function Live(w: World): set<Pid> { w.daemons - w.signalled }

  predicate OnlyRecorded(w: World) {
    forall p :: p in Live(w) ==> Recorded(w) == Some(p)
  }

  /** What the command past the lock can rely on. */
  predicate Fits(w: World, p: Phase) {
    match p
    case Idle => true
    case Finished(_) => true
    case Locked => OnlyRecorded(w)
    case HasRead(existing) => OnlyRecorded(w) && existing == Recorded(w)
    case Stale => Live(w) == {}
    case PidFileGone => Live(w) == {} && w.pidFile.None?
    case Cleared => Live(w) == {} && NothingRecorded(w)
    case Spawned(pid) => Live(w) <= {pid} && NothingRecorded(w)
    case PidWritten(pid) => Live(w) <= {pid} && w.stateFile.None? && w.pidFile == Some(pid)
    case Waiting(pid) => Live(w) <= {pid} && BothRecord(w, pid)
    case SawAlive(pid) => Live(w) <= {pid} && BothRecord(w, pid)
    case StartupFailed(pid) => Live(w) <= {pid}
    case Terminated => Live(w) == {}
    case TerminatedPidFileGone => Live(w) == {} && w.pidFile.None?
    case Releasing(o) => OnlyRecorded(w) && FilesTell(w, o)
  }

  predicate NothingRecorded(w: World) { w.pidFile.None? && w.stateFile.None? }

  predicate BothRecord(w: World, pid: Pid) { w.pidFile == Some(pid) && w.stateFile == Some(pid) }

  /** A daemon that was started is recorded in both files; a failed start leaves neither. */
  predicate FilesTell(w: World, o: Outcome) {
    match o
    case Started(pid) => BothRecord(w, pid)
    case Failed => NothingRecorded(w)
    case _ => true
  }

  ghost predicate Exclusive(w: World) {
    && (forall c, d :: PastLock(PhaseOf(w, c)) && PastLock(PhaseOf(w, d)) ==> c == d)
    && (w.lockFile <==> exists c :: PastLock(PhaseOf(w, c)))
  }

  ghost predicate Inv(w: World) {
    && Exclusive(w) && w.daemons <= w.alive
    && (forall c :: Fits(w, PhaseOf(w, c)))
    && (!w.lockFile ==> OnlyRecorded(w))
  }

  /** No command has begun; at most the recorded daemon is live. Stale files are allowed. */
  ghost predicate Initial(w: World) {
    w.phases == map[] && !w.lockFile && w.daemons <= w.alive && OnlyRecorded(w)
  }

  ghost predicate IsRun(steps: seq<Step>, trace: seq<World>) {
    && |trace| == |steps| + 1 && Initial(trace[0])
    && forall i :: 0 <= i < |steps| ==> Enabled(trace[i], steps[i]) && trace[i + 1] == Apply(trace[i], steps[i])
  }

  /** A step of a command past the lock: only that command moves, and the lock stays unless it is released. */
  lemma CommandKeepsExclusive(w: World, n: World, c: CommandId, p: Phase)
    requires Exclusive(w) && PastLock(PhaseOf(w, c)) && n.phases == w.phases[c := p]
    requires if p.Finished? then !n.lockFile else PastLock(p) && n.lockFile
    ensures Exclusive(n) && forall d :: d != c ==> !PastLock(PhaseOf(n, d))
  {
    forall d | d != c ensures PhaseOf(n, d) == PhaseOf(w, d) && !PastLock(PhaseOf(n, d)) {}
    assert PhaseOf(n, c) == p;
  }

  /** What the command past the lock relies on, it can still rely on after its own step. */
  lemma CommandKeepsFits(w: World, s: Step, c: CommandId)
    requires Enabled(w, s) && Fits(w, PhaseOf(w, c)) && PastLock(PhaseOf(w, c)) && w.daemons <= w.alive
    requires !s.Exits? && !s.OtherStarts? && !s.PortsChange? && !s.Acquire? && !s.Refuse? && s.c == c
    ensures var n := Apply(w, s);
            Fits(n, PhaseOf(n, c)) && n.daemons <= n.alive && (PhaseOf(n, c).Finished? ==> OnlyRecorded(n))
  {
    if s.FindStale? {
      forall p ensures p !in Live(w) {
        assert p in Live(w) ==> Recorded(w) == Some(p) && p in w.alive;
      }
      assert Live(w) == {};
    }
  }

  lemma StepKeepsInv(w: World, s: Step)
    requires Inv(w) && Enabled(w, s)
    ensures Inv(Apply(w, s))
  {
    var n := Apply(w, s);
    if s.Exits? || s.OtherStarts? || s.PortsChange? {
      EnvironmentKeepsInv(w, s);
    } else if s.Acquire? {
      assert forall d :: PhaseOf(n, d) == if d == s.c then Locked else PhaseOf(w, d);
      assert PastLock(PhaseOf(n, s.c));
    } else if s.Refuse? {
      assert forall d :: PhaseOf(n, d) == if d == s.c then Finished(Refused) else PhaseOf(w, d);
      var holder :| PastLock(PhaseOf(w, holder));
      assert PastLock(PhaseOf(n, holder));
      forall d ensures Fits(n, PhaseOf(n, d)) { assert Fits(w, PhaseOf(w, d)); }
    } else {
      assert PastLock(PhaseOf(w, s.c));
      CommandKeepsExclusive(w, n, s.c, PhaseOf(n, s.c));
      CommandKeepsFits(w, s, s.c);
    }
  }

  lemma EnvironmentKeepsInv(w: World, s: Step)
    requires Inv(w) && Enabled(w, s) && (s.Exits? || s.OtherStarts? || s.PortsChange?)
    ensures Inv(Apply(w, s))
  {
    var n := Apply(w, s);
    assert Live(n) <= Live(w);
    forall c ensures PhaseOf(n, c) == PhaseOf(w, c) && Fits(n, PhaseOf(n, c)) {
      assert Fits(w, PhaseOf(w, c));
    }
  }

  lemma {:induction false} RunKeepsInv(steps: seq<Step>, trace: seq<World>, k: nat)
    requires IsRun(steps, trace) && k < |trace|
    ensures Inv(trace[k])
  {
    if k > 0 {
      RunKeepsInv(steps, trace, k - 1);
      StepKeepsInv(trace[k - 1], steps[k - 1]);
    }
  }

  /** At most one command is past the lock, over every interleaving. */
  lemma OneCommandPastLock(steps: seq<Step>, trace: seq<World>, k: nat, c: CommandId, d: CommandId)
    requires IsRun(steps, trace) && k < |trace|
    requires PastLock(PhaseOf(trace[k], c)) && PastLock(PhaseOf(trace[k], d))
    ensures c == d && trace[k].lockFile
  {
    RunKeepsInv(steps, trace, k);
  }

  /** Whenever the lock is free, a live daemon that was not signalled is the recorded one. */
  lemma FreeLockMeansRecorded(steps: seq<Step>, trace: seq<World>, k: nat, p: Pid)
    requires IsRun(steps, trace) && k < |trace| && !trace[k].lockFile && p in Live(trace[k])
    ensures Recorded(trace[k]) == Some(p)
  {
    RunKeepsInv(steps, trace, k);
  }

  /** Even while a command is at work there are never two live daemons that were not signalled. */
  lemma NeverTwoDaemons(steps: seq<Step>, trace: seq<World>, k: nat, p: Pid, q: Pid)
    requires IsRun(steps, trace) && k < |trace| && p in Live(trace[k]) && q in Live(trace[k])
    ensures p == q
  {
    RunKeepsInv(steps, trace, k);
    var w := trace[k];
    if w.lockFile {
      var c :| PastLock(PhaseOf(w, c));
      assert Fits(w, PhaseOf(w, c));
    }
  }

  /** In every run, when a command is about to report its outcome the files tell it, too. */
  lemma FilesTellOutcome(steps: seq<Step>, trace: seq<World>, k: nat, c: CommandId)
    requires IsRun(steps, trace) && k < |trace| && PhaseOf(trace[k], c).Releasing?
    ensures match PhaseOf(trace[k], c).outcome
      case Started(pid) => trace[k].pidFile == Some(pid) && trace[k].stateFile == Some(pid)
      case Failed => trace[k].pidFile.None? && trace[k].stateFile.None?
      case _ => true
  {
    RunKeepsInv(steps, trace, k);
    assert Fits(trace[k], PhaseOf(trace[k], c));
  }

  // ---- what an outcome tells ----

  /** Before step `k` the command spawned this process, under an id that was not in use. */
  ghost predicate SpawnedIt(steps: seq<Step>, trace: seq<World>, k: nat, c: CommandId, pid: Pid)
    requires |trace| == |steps| + 1 && k <= |steps|
  {
    exists i :: 0 <= i < k && steps[i] == Spawn(c, pid) && pid !in trace[i].alive
  }

  ghost predicate SawItAlive(steps: seq<Step>, trace: seq<World>, k: nat, c: CommandId, pid: Pid)
    requires |trace| == |steps| + 1 && k <= |steps|
  {
    exists i :: 0 <= i < k && steps[i] == SeeAlive(c) && pid in trace[i].alive && SpawnedIt(steps, trace, i, c, pid)
  }

  /** Before step `k` the command read this from the files: the state file, or the pid file when there is none. */
  ghost predicate ReadIt(steps: seq<Step>, trace: seq<World>, k: nat, c: CommandId, existing: Option<Pid>)
    requires |trace| == |steps| + 1 && k <= |steps|
  {
    exists i :: 0 <= i < k && steps[i] == Read(c)
                && existing == if trace[i].stateFile.None? then trace[i].pidFile else trace[i].stateFile
  }

  /** What must have happened before step `k` for the command to report this. */
  ghost predicate Earned(steps: seq<Step>, trace: seq<World>, k: nat, c: CommandId, o: Outcome)
    requires |trace| == |steps| + 1 && k <= |steps|
  {
    match o
    case AlreadyRunning =>
      exists i, pid :: 0 <= i < k && steps[i] == FindRunning(c) && pid in trace[i].alive
                       && ReadIt(steps, trace, i, c, Some(pid))
    case Started(pid) =>
      exists i :: 0 <= i < k && steps[i] == SeeReady(c) && trace[i].portsTaken && SawItAlive(steps, trace, i, c, pid)
    case Refused => exists i :: 0 <= i < k && steps[i] == Refuse(c) && trace[i].lockFile
    case Failed => exists i :: 0 <= i < k && (steps[i] == GiveUp(c) || steps[i] == Terminate(c))
  }

  ghost predicate Reached(steps: seq<Step>, trace: seq<World>, k: nat, c: CommandId, p: Phase)
    requires |trace| == |steps| + 1 && k <= |steps|
  {
    match p
    case HasRead(existing) => ReadIt(steps, trace, k, c, existing)
    case Spawned(pid) => SpawnedIt(steps, trace, k, c, pid)
    case PidWritten(pid) => SpawnedIt(steps, trace, k, c, pid)
    case Waiting(pid) => SpawnedIt(steps, trace, k, c, pid)
    case SawAlive(pid) => SawItAlive(steps, trace, k, c, pid) && SpawnedIt(steps, trace, k, c, pid)
    case StartupFailed(pid) => SpawnedIt(steps, trace, k, c, pid)
    case Terminated => Earned(steps, trace, k, c, Failed)
    case TerminatedPidFileGone => Earned(steps, trace, k, c, Failed)
    case Releasing(o) => Earned(steps, trace, k, c, o)
    case Finished(o) => Earned(steps, trace, k, c, o)
    case _ => true
  }

  lemma StaysReached(steps: seq<Step>, trace: seq<World>, k: nat, c: CommandId, p: Phase)
    requires |trace| == |steps| + 1 && k < |steps| && Reached(steps, trace, k, c, p)
    ensures Reached(steps, trace, k + 1, c, p)
  {
  }

  /** The steps after which a command has its outcome. */
  predicate Decides(s: Step) { s.Refuse? || s.FindRunning? || s.GiveUp? || s.SeeReady? || s.Terminate? }

  lemma DecidingStepReaches(steps: seq<Step>, trace: seq<World>, k: nat)
    requires IsRun(steps, trace) && k < |steps| && Decides(steps[k])
    requires Reached(steps, trace, k, steps[k].c, PhaseOf(trace[k], steps[k].c))
    ensures Reached(steps, trace, k + 1, steps[k].c, PhaseOf(trace[k + 1], steps[k].c))
  {
    assert trace[k + 1] == Apply(trace[k], steps[k]);
  }

  lemma StepReaches(steps: seq<Step>, trace: seq<World>, k: nat, c: CommandId)
    requires IsRun(steps, trace) && k < |steps| && Reached(steps, trace, k, c, PhaseOf(trace[k], c))
    ensures Reached(steps, trace, k + 1, c, PhaseOf(trace[k + 1], c))
  {
    var s := steps[k];
    StaysReached(steps, trace, k, c, PhaseOf(trace[k], c));
    if Decides(s) && s.c == c {
      DecidingStepReaches(steps, trace, k);
    } else {
      assert trace[k + 1] == Apply(trace[k], s);
    }
  }

  lemma {:induction false} PhaseIsReached(steps: seq<Step>, trace: seq<World>, k: nat, c: CommandId)
    requires IsRun(steps, trace) && k <= |steps|
    ensures Reached(steps, trace, k, c, PhaseOf(trace[k], c))
  {
    if k > 0 {
      PhaseIsReached(steps, trace, k - 1, c);
      StepReaches(steps, trace, k - 1, c);
    }
  }

  /**
   In every run a command that reports a daemon started spawned that very process, then saw it alive, and after that
   both ports taken; one that reports a daemon running saw the recorded process alive; one that is refused found the
   lock taken.
   */
  lemma OutcomesAreEarned(steps: seq<Step>, trace: seq<World>, k: nat, c: CommandId)
    requires IsRun(steps, trace) && k <= |steps| && PhaseOf(trace[k], c).Finished?
    ensures Earned(steps, trace, k, c, PhaseOf(trace[k], c).outcome)
  {
    PhaseIsReached(steps, trace, k, c);
  }
}
