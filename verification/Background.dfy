/** A background run: one record file that a starter, a supervisor, stoppers,
    gatherers and a remover each read, change and write back, without a lock.
    Reading it, looking for its process and writing it are separate steps here; a
    write is fresh when nobody wrote since its writer read. */
module Background {
  import opened Wrappers

  // ----- The record -----

  /** The fields of a run that change. */
  datatype Record = Record(
    supervisorPid: Option<nat>,
    pid: Option<nat>,
    finishedAt: Option<nat>,
    exitCode: Option<int>,
    stopped: bool,
    gathered: bool)

  datatype RunState = Running | Finished | Failed | Stopped | Lost

  const NEW_RECORD := Record(None, None, None, None, false, false)

  function StateOf(r: Record, alive: set<nat>): RunState {
    if r.finishedAt.Some? then
      (if r.stopped then Stopped else if r.exitCode == Some(0) then Finished else Failed)
    else match r.supervisorPid
      case Some(pid) => if pid in alive then Running else Lost
      case None => Running
  }

  /** The one thing each writer changes in what it read. */
  datatype Change =
    | SetSupervisor(supervisor: nat)
    | SetPid(child: nat)
    | Finish(at: nat, code: int)
    | MarkStopped
    | MarkGathered

  function Apply(r: Record, change: Change): Record {
    match change
    case SetSupervisor(p) => r.(supervisorPid := Some(p))
    case SetPid(p) => r.(pid := Some(p))
    case Finish(at, code) => r.(finishedAt := Some(at), exitCode := Some(code))
    case MarkStopped => r.(stopped := true)
    case MarkGathered => r.(gathered := true)
  }

  // ----- The system -----

  /** What a writer read, and how many writes there had been by then. */
  datatype Copy = Copy(base: Record, version: nat)

  /** What a stop, a gather or a removal read, and whether it has found since that it may
      go on. One that is refused goes no further. */
  datatype Request = Request(copy: Copy, passed: bool)

  datatype Starter = Idle | Written(copy: Copy) | Spawned(copy: Copy, supervisor: nat) | StarterDone

  datatype Supervisor =
    | NotSpawned
    | Waiting(self: nat)
    | HasRead(self: nat, copy: Copy)
    | HasChild(self: nat, copy: Copy, child: nat)
    | Watching(self: nat, copy: Copy, child: nat)
    | Ending(self: nat, copy: Copy, at: nat, code: int)
    | SupervisorDone(self: nat, at: nat, code: int)

  datatype System = System(
    disk: Option<Record>,
    version: nat,
    alive: set<nat>,
    used: set<nat>,
    starter: Starter,
    supervisor: Supervisor,
    stops: map<nat, Request>,
    gathers: map<nat, Request>,
    removals: map<nat, Request>,
    delivered: nat,
    failedGathers: nat)

  const INITIAL := System(None, 0, {}, {}, Idle, NotSpawned, map[], map[], map[], 0, 0)

  datatype Step =
    | FirstSave
    | SpawnSupervisor(p: nat)
    | SecondSave
    | SupervisorReads
    | SpawnChild(p: nat)
    | ChildNotSpawned(at: nat)
    | SavePid
    | ChildEnded(at: nat, code: int)
    | FinalSave
    | Dies(p: nat)
    | StopReads(k: nat)
    | StopTests(k: nat)
    | StopSaves(k: nat)
    | GatherReads(k: nat)
    | GatherTests(k: nat)
    | GatherEnds(k: nat, saved: bool)
    | RemoveReads(k: nat)
    | RemoveTests(k: nat)
    | RemoveActs(k: nat)

  function Read(s: System): Copy
    requires s.disk.Some?
  {
    Copy(s.disk.value, s.version)
  }

  function Write(s: System, copy: Copy, change: Change): System {
    s.(disk := Some(Apply(copy.base, change)), version := s.version + 1)
  }

  predicate SupervisorRuns(s: System) {
    !s.supervisor.NotSpawned? && !s.supervisor.SupervisorDone? && s.supervisor.self in s.alive
  }

  predicate Waits(requests: map<nat, Request>, k: nat) {
    k in requests && !requests[k].passed
  }

  predicate Passed(requests: map<nat, Request>, k: nat) {
    k in requests && requests[k].passed
  }

  /** Whether what a request read shows a running run; the process is looked up only now. */
  predicate LooksRunning(s: System, request: Request) {
    StateOf(request.copy.base, s.alive).Running?
  }

  /** When a step can be taken. No process id is ever used twice. */
  predicate Enabled(s: System, step: Step) {
    match step
    case FirstSave => s.starter.Idle?
    case SpawnSupervisor(p) => s.starter.Written? && p !in s.used
    case SecondSave => s.starter.Spawned?
    case SupervisorReads => SupervisorRuns(s) && s.supervisor.Waiting? && s.disk.Some?
    case SpawnChild(p) => SupervisorRuns(s) && s.supervisor.HasRead? && p !in s.used
    case ChildNotSpawned(_) => SupervisorRuns(s) && s.supervisor.HasRead?
    case SavePid => SupervisorRuns(s) && s.supervisor.HasChild?
    case ChildEnded(_, _) => SupervisorRuns(s) && s.supervisor.Watching? && s.supervisor.child !in s.alive
    case FinalSave => SupervisorRuns(s) && s.supervisor.Ending?
    case Dies(p) => p in s.alive
    case StopReads(k) => k !in s.stops && s.disk.Some?
    case StopTests(k) => Waits(s.stops, k) && LooksRunning(s, s.stops[k])
    case StopSaves(k) => Passed(s.stops, k)
    case GatherReads(k) => k !in s.gathers && s.disk.Some?
    case GatherTests(k) =>
      Waits(s.gathers, k) && !s.gathers[k].copy.base.gathered && !LooksRunning(s, s.gathers[k])
    case GatherEnds(k, _) => Passed(s.gathers, k)
    case RemoveReads(k) => k !in s.removals && s.disk.Some?
    case RemoveTests(k) => Waits(s.removals, k) && !LooksRunning(s, s.removals[k])
    case RemoveActs(k) => Passed(s.removals, k)
  }

  function Next(s: System, step: Step): System
    requires Enabled(s, step)
  {
    match step
    case FirstSave =>
      s.(disk := Some(NEW_RECORD), version := s.version + 1, starter := Written(Copy(NEW_RECORD, s.version + 1)))
    case SpawnSupervisor(p) =>
      s.(alive := s.alive + {p}, used := s.used + {p}, starter := Spawned(s.starter.copy, p), supervisor := Waiting(p))
    case SecondSave => Write(s, s.starter.copy, SetSupervisor(s.starter.supervisor)).(starter := StarterDone)
    case SupervisorReads => s.(supervisor := HasRead(s.supervisor.self, Read(s)))
    case SpawnChild(p) =>
      s.(alive := s.alive + {p}, used := s.used + {p}, supervisor := HasChild(s.supervisor.self, s.supervisor.copy, p))
    case ChildNotSpawned(at) => s.(supervisor := Ending(s.supervisor.self, s.supervisor.copy, at, -1))
    case SavePid =>
      var change := SetPid(s.supervisor.child);
      Write(s, s.supervisor.copy, change).(supervisor :=
        Watching(s.supervisor.self, Copy(Apply(s.supervisor.copy.base, change), s.version + 1), s.supervisor.child))
    case ChildEnded(at, code) =>
      // The record is read again; what was read at first stands in when that fails.
      s.(supervisor := Ending(s.supervisor.self, if s.disk.Some? then Read(s) else s.supervisor.copy, at, code))
    case FinalSave =>
      Write(s, s.supervisor.copy, Finish(s.supervisor.at, s.supervisor.code)).(
        supervisor := SupervisorDone(s.supervisor.self, s.supervisor.at, s.supervisor.code),
        alive := s.alive - {s.supervisor.self})
    case Dies(p) => s.(alive := s.alive - {p})
    case StopReads(k) => s.(stops := s.stops[k := Request(Read(s), false)])
    case StopTests(k) => s.(stops := s.stops[k := s.stops[k].(passed := true)])
    case StopSaves(k) => Write(s, s.stops[k].copy, MarkStopped).(stops := s.stops - {k})
    case GatherReads(k) => s.(gathers := s.gathers[k := Request(Read(s), false)])
    case GatherTests(k) => s.(gathers := s.gathers[k := s.gathers[k].(passed := true)])
    case GatherEnds(k, saved) =>
      var s' := s.(gathers := s.gathers - {k}, delivered := s.delivered + 1);
      if saved then Write(s', s.gathers[k].copy, MarkGathered) else s'.(failedGathers := s.failedGathers + 1)
    case RemoveReads(k) => s.(removals := s.removals[k := Request(Read(s), false)])
    case RemoveTests(k) => s.(removals := s.removals[k := s.removals[k].(passed := true)])
    case RemoveActs(k) => s.(disk := None, version := s.version + 1, removals := s.removals - {k})
  }

  /** The copy a step writes back or acts on, if it does. */
  function Acts(s: System, step: Step): Option<Copy>
    requires Enabled(s, step)
  {
    match step
    case SecondSave => Some(s.starter.copy)
    case SavePid => Some(s.supervisor.copy)
    case FinalSave => Some(s.supervisor.copy)
    case StopSaves(k) => Some(s.stops[k].copy)
    case GatherEnds(k, true) => Some(s.gathers[k].copy)
    case RemoveActs(k) => Some(s.removals[k].copy)
    case _ => None
  }

  predicate IsFresh(s: System, step: Step)
    requires Enabled(s, step)
  {
    Acts(s, step).Some? ==> Acts(s, step).value.version == s.version
  }

  // ----- Runs -----

  ghost predicate Possible(s: System, steps: seq<Step>)
    decreases |steps|
  {
    steps == [] || (Enabled(s, steps[0]) && Possible(Next(s, steps[0]), steps[1..]))
  }

  /** A possible run in which every write is fresh. */
  ghost predicate Orderly(s: System, steps: seq<Step>)
    decreases |steps|
  {
    steps == [] || (Enabled(s, steps[0]) && IsFresh(s, steps[0]) && Orderly(Next(s, steps[0]), steps[1..]))
  }

  ghost function After(s: System, steps: seq<Step>): System
    requires Possible(s, steps)
    decreases |steps|
  {
    if steps == [] then s else After(Next(s, steps[0]), steps[1..])
  }

  lemma {:induction false} OrderlyIsPossible(s: System, steps: seq<Step>)
    requires Orderly(s, steps)
    ensures Possible(s, steps)
    decreases |steps|
  {
    if steps == [] {
    } else {
      OrderlyIsPossible(Next(s, steps[0]), steps[1..]);
    }
  }

  /** A copy no write has overtaken is the record as it stands. */
  ghost predicate Current(s: System, copy: Copy) {
    copy.version <= s.version && (copy.version == s.version ==> s.disk == Some(copy.base))
  }

  ghost predicate HasCopy(s: System) {
    s.supervisor.HasRead? || s.supervisor.HasChild? || s.supervisor.Watching? || s.supervisor.Ending?
  }

  /** A record that no longer shows a running run, for as long as it stands. */
  ghost predicate Over(s: System, r: Record) {
    || r.finishedAt.Some?
    || (r.supervisorPid.Some? && r.supervisorPid.value in s.used && r.supervisorPid.value !in s.alive)
  }

  ghost predicate OwnCopiesConsistent(s: System) {
    && (s.starter.Written? || s.starter.Spawned? ==> Current(s, s.starter.copy))
    && (HasCopy(s) ==> Current(s, s.supervisor.copy))
  }

  ghost predicate StopsConsistent(s: System) {
    forall k <- s.stops.Keys ::
      Current(s, s.stops[k].copy) && (s.stops[k].passed ==> s.stops[k].copy.base.finishedAt.None?)
  }

  ghost predicate GathersConsistent(s: System) {
    forall k <- s.gathers.Keys ::
      Current(s, s.gathers[k].copy) && (s.gathers[k].passed ==> !s.gathers[k].copy.base.gathered)
  }

  ghost predicate RemovalsConsistent(s: System) {
    forall k <- s.removals.Keys ::
      var r := s.removals[k].copy.base;
      && Current(s, s.removals[k].copy)
      && (r.supervisorPid.Some? ==> r.supervisorPid.value in s.used)
      && (s.removals[k].passed ==> Over(s, r))
  }

  ghost predicate ProcessesConsistent(s: System) {
    && s.alive <= s.used
    && (s.starter.Idle? ==>
         s.disk.None? && s.version == 0 && s.stops == map[] && s.gathers == map[] && s.removals == map[])
    && (s.starter.Idle? || s.starter.Written? ==> s.supervisor.NotSpawned?)
    && (s.starter.Written? ==> s.disk.Some?)
    && (s.starter.Spawned? ==> !s.supervisor.NotSpawned? && s.supervisor.self == s.starter.supervisor)
    && (!s.supervisor.NotSpawned? ==> s.supervisor.self in s.used)
    && (s.supervisor.SupervisorDone? ==> s.supervisor.self !in s.alive)
    && (SupervisorRuns(s) ==> s.disk.Some?)
  }

  ghost predicate RecordConsistent(s: System) {
    && (s.disk.Some? && s.disk.value.supervisorPid.Some? ==>
          !s.supervisor.NotSpawned? && s.disk.value.supervisorPid.value == s.supervisor.self)
    && (s.disk.Some? ==> (s.disk.value.finishedAt.Some? <==> s.supervisor.SupervisorDone?))
    && s.failedGathers <= s.delivered <= s.failedGathers + 1
    && (s.disk.Some? ==> s.delivered == s.failedGathers + (if s.disk.value.gathered then 1 else 0))
    && (s.starter.Idle? ==> s.delivered == 0 && s.failedGathers == 0)
  }

  ghost predicate Consistent(s: System) {
    && OwnCopiesConsistent(s) && StopsConsistent(s) && GathersConsistent(s) && RemovalsConsistent(s)
    && ProcessesConsistent(s) && RecordConsistent(s)
  }

  // ----- What a fresh step keeps -----

  /** The change a step makes to the record, if it writes one. */
  function ChangeOf(s: System, step: Step): Option<Change>
    requires Enabled(s, step)
  {
    match step
    case SecondSave => Some(SetSupervisor(s.starter.supervisor))
    case SavePid => Some(SetPid(s.supervisor.child))
    case FinalSave => Some(Finish(s.supervisor.at, s.supervisor.code))
    case StopSaves(k) => Some(MarkStopped)
    case GatherEnds(k, true) => Some(MarkGathered)
    case _ => None
  }

  lemma CopiesStayConsistent(s: System, step: Step)
    requires Consistent(s) && Enabled(s, step) && IsFresh(s, step)
    ensures OwnCopiesConsistent(Next(s, step))
  {
  }

  lemma StopsStayConsistent(s: System, step: Step)
    requires Consistent(s) && Enabled(s, step) && IsFresh(s, step)
    ensures StopsConsistent(Next(s, step))
  {
  }

  lemma GathersStayConsistent(s: System, step: Step)
    requires Consistent(s) && Enabled(s, step) && IsFresh(s, step)
    ensures GathersConsistent(Next(s, step))
  {
  }

  lemma RemovalsStayConsistent(s: System, step: Step)
    requires Consistent(s) && Enabled(s, step) && IsFresh(s, step)
    ensures RemovalsConsistent(Next(s, step))
  {
  }

  lemma ProcessesStayConsistent(s: System, step: Step)
    requires Consistent(s) && Enabled(s, step) && IsFresh(s, step)
    ensures ProcessesConsistent(Next(s, step))
  {
  }

  lemma RecordStaysConsistent(s: System, step: Step)
    requires Consistent(s) && Enabled(s, step) && IsFresh(s, step)
    ensures RecordConsistent(Next(s, step))
  {
  }

  /** What a record shows is never taken back, however the run goes on. */
  ghost predicate Keeps(s: System, s': System)
    requires s.disk.Some? && s'.disk.Some?
  {
    var (r, r') := (s.disk.value, s'.disk.value);
    && (r.finishedAt.Some? ==> r'.finishedAt == r.finishedAt && r'.exitCode == r.exitCode)
    && (r.stopped ==> r'.stopped)
    && (r.gathered ==> r'.gathered)
    && (!StateOf(r, s.alive).Running? ==> StateOf(r', s'.alive) == StateOf(r, s.alive))
  }

  /** Nothing recorded is taken back, and a state other than running is final. */
  lemma StepSettles(s: System, step: Step)
    requires Consistent(s) && Enabled(s, step) && IsFresh(s, step)
    requires s.disk.Some? && Next(s, step).disk.Some?
    ensures Keeps(s, Next(s, step))
  {
  }

  lemma StaysConsistent(s: System, step: Step)
    requires Consistent(s) && Enabled(s, step) && IsFresh(s, step)
    ensures Consistent(Next(s, step))
  {
    CopiesStayConsistent(s, step);
    StopsStayConsistent(s, step);
    GathersStayConsistent(s, step);
    RemovalsStayConsistent(s, step);
    ProcessesStayConsistent(s, step);
    RecordStaysConsistent(s, step);
  }

  // ----- Whole runs -----

  lemma {:induction false} OrderlyRunsStayConsistent(s: System, steps: seq<Step>)
    requires Consistent(s) && Orderly(s, steps)
    ensures Possible(s, steps) && Consistent(After(s, steps))
    decreases |steps|
  {
    OrderlyIsPossible(s, steps);
    if steps == [] {
    } else {
      StaysConsistent(s, steps[0]);
      OrderlyRunsStayConsistent(Next(s, steps[0]), steps[1..]);
    }
  }

  lemma RemovedForGood(s: System, step: Step)
    requires Consistent(s) && Enabled(s, step) && IsFresh(s, step)
    requires s.disk.None? && !s.starter.Idle?
    ensures Next(s, step).disk.None? && !Next(s, step).starter.Idle?
  {
  }

  lemma {:induction false} NothingAfterRemoval(s: System, steps: seq<Step>)
    requires Consistent(s) && Orderly(s, steps) && s.disk.None? && !s.starter.Idle?
    ensures Possible(s, steps) && After(s, steps).disk.None?
    decreases |steps|
  {
    OrderlyIsPossible(s, steps);
    if steps == [] {
    } else {
      StaysConsistent(s, steps[0]);
      RemovedForGood(s, steps[0]);
      NothingAfterRemoval(Next(s, steps[0]), steps[1..]);
    }
  }

  /** In an orderly run, a run that has left Running never comes back, and its end,
      its stop and its gathering stay recorded until it is removed. */
  lemma {:induction false} RunSettles(s: System, steps: seq<Step>)
    requires Consistent(s) && Orderly(s, steps) && s.disk.Some?
    ensures Possible(s, steps)
    ensures After(s, steps).disk.Some? ==> Keeps(s, After(s, steps))
    decreases |steps|
  {
    OrderlyIsPossible(s, steps);
    if steps == [] {
    } else {
      var s' := Next(s, steps[0]);
      StaysConsistent(s, steps[0]);
      if s'.disk.Some? {
        StepSettles(s, steps[0]);
        RunSettles(s', steps[1..]);
      } else {
        NothingAfterRemoval(s', steps[1..]);
      }
    }
  }

  /** A stop that was recorded is how the run ends, whatever the exit code, once the
      supervisor has lived to record the end. */
  lemma StopDecidesTheEnd(s: System, steps: seq<Step>)
    requires Consistent(s) && Orderly(s, steps) && s.disk.Some? && s.disk.value.stopped
    ensures Possible(s, steps)
    ensures var s' := After(s, steps);
      s'.disk.Some? && s'.supervisor.SupervisorDone? ==> StateOf(s'.disk.value, s'.alive) == Stopped
  {
    RunSettles(s, steps);
    OrderlyRunsStayConsistent(s, steps);
  }

  /** Every answer is delivered once, but for gathers whose mark could not be saved. */
  lemma DeliveredOnce(steps: seq<Step>)
    requires Orderly(INITIAL, steps)
    ensures Possible(INITIAL, steps)
    ensures var s := After(INITIAL, steps);
      && s.failedGathers <= s.delivered <= s.failedGathers + 1
      && (s.disk.Some? ==> (s.disk.value.gathered <==> s.delivered == s.failedGathers + 1))
  {
    OrderlyRunsStayConsistent(INITIAL, steps);
  }

  /** Nothing is removed under a supervisor that is still at work. */
  lemma SupervisedRecordStands(steps: seq<Step>)
    requires Orderly(INITIAL, steps)
    ensures Possible(INITIAL, steps)
    ensures SupervisorRuns(After(INITIAL, steps)) ==> After(INITIAL, steps).disk.Some?
  {
    OrderlyRunsStayConsistent(INITIAL, steps);
  }

  // ----- When what was recorded stands, with writes however stale -----

  /** What a writer records for good: the end, a stop, or that the answer was gathered. */
  datatype Mark = EndMark | StopMark | GatherMark

  predicate Shows(r: Record, m: Mark) {
    match m
    case EndMark => r.finishedAt.Some?
    case StopMark => r.stopped
    case GatherMark => r.gathered
  }

  /** A write that puts the mark on what it writes back. */
  predicate Sets(s: System, step: Step, m: Mark)
    requires Enabled(s, step)
  {
    match m
    case EndMark => step.FinalSave?
    case StopMark => step.StopSaves?
    case GatherMark => step.GatherEnds? && step.saved
  }

  /** Who may hold a copy of the record. */
  datatype Holder = ByStarter | BySupervisor | ByStop(k: nat) | ByGather(k: nat) | ByRemoval(k: nat)

  function Requested(requests: map<nat, Request>, k: nat): Option<Copy> {
    if k in requests then Some(requests[k].copy) else None
  }

  function CopyOf(s: System, h: Holder): Option<Copy> {
    match h
    case ByStarter => if s.starter.Written? || s.starter.Spawned? then Some(s.starter.copy) else None
    case BySupervisor =>
      if s.supervisor.HasRead? || s.supervisor.HasChild? || s.supervisor.Watching? || s.supervisor.Ending?
      then Some(s.supervisor.copy) else None
    case ByStop(k) => Requested(s.stops, k)
    case ByGather(k) => Requested(s.gathers, k)
    case ByRemoval(k) => Requested(s.removals, k)
  }

  /** The holder whose copy a step writes back, if it writes one. */
  function Writer(step: Step): Holder {
    match step
    case SavePid => BySupervisor
    case FinalSave => BySupervisor
    case StopSaves(k) => ByStop(k)
    case GatherEnds(k, _) => ByGather(k)
    case _ => ByStarter
  }

  /** After a step a copy is what it was, or given up, or the record before or after. */
  lemma CopyAfter(s: System, step: Step, h: Holder)
    requires Enabled(s, step)
    ensures var (c, c') := (CopyOf(s, h), CopyOf(Next(s, step), h));
      || c' == None || c' == c
      || (s.disk.Some? && c' == Some(Read(s)))
      || (Next(s, step).disk.Some? && c' == Some(Read(Next(s, step))))
  {
  }

  /** What holds in every possible run. */
  ghost predicate Sound(s: System) {
    && (s.starter.Idle? ==> s.disk.None? && s.stops == map[] && s.gathers == map[] && s.removals == map[])
    && (s.starter.Idle? || s.starter.Written? ==> s.supervisor.NotSpawned?)
    && (forall h: Holder :: CopyOf(s, h).Some? ==> CopyOf(s, h).value.version <= s.version)
    && (forall k <- s.gathers.Keys :: s.gathers[k].passed ==> !s.gathers[k].copy.base.gathered)
  }

  lemma SoundStays(s: System, step: Step)
    requires Sound(s) && Enabled(s, step)
    ensures Sound(Next(s, step))
  {
    forall h: Holder
      ensures CopyOf(Next(s, step), h).Some? ==> CopyOf(Next(s, step), h).value.version <= Next(s, step).version
    {
      CopyAfter(s, step, h);
    }
  }

  /** Neither the record nor a copy shows the mark. */
  ghost predicate Unset(s: System, m: Mark) {
    && (s.disk.Some? ==> !Shows(s.disk.value, m))
    && (forall h: Holder :: CopyOf(s, h).Some? ==> !Shows(CopyOf(s, h).value.base, m))
  }

  /** The record shows the mark, and a copy shows it exactly when it was read at version
      `v` or later. */
  ghost predicate SetSince(s: System, m: Mark, v: nat) {
    && !s.starter.Idle? && v <= s.version
    && (s.disk.Some? ==> Shows(s.disk.value, m))
    && (forall h: Holder :: CopyOf(s, h).Some? ==>
          (Shows(CopyOf(s, h).value.base, m) <==> CopyOf(s, h).value.version >= v))
  }

  /** A write, of anything but the mark, of what was read before version `v`. */
  ghost predicate TakesBack(s: System, step: Step, m: Mark, v: nat)
    requires Enabled(s, step)
  {
    ChangeOf(s, step).Some? && !Sets(s, step, m) && Acts(s, step).value.version < v
  }

  lemma RecordStaysUnset(s: System, step: Step, m: Mark)
    requires Unset(s, m) && Enabled(s, step) && !Sets(s, step, m)
    ensures Next(s, step).disk.Some? ==> !Shows(Next(s, step).disk.value, m)
  {
    assert ChangeOf(s, step).Some? ==> CopyOf(s, Writer(step)) == Acts(s, step);
  }

  lemma StaysUnset(s: System, step: Step, m: Mark)
    requires Unset(s, m) && Enabled(s, step) && !Sets(s, step, m)
    ensures Unset(Next(s, step), m)
  {
    RecordStaysUnset(s, step, m);
    forall h: Holder | CopyOf(Next(s, step), h).Some?
      ensures !Shows(CopyOf(Next(s, step), h).value.base, m)
    {
      CopyAfter(s, step, h);
    }
  }

  lemma FirstSets(s: System, step: Step, m: Mark)
    requires Sound(s) && Unset(s, m) && Enabled(s, step) && Sets(s, step, m)
    ensures SetSince(Next(s, step), m, s.version + 1)
  {
    var s' := Next(s, step);
    forall h: Holder | CopyOf(s', h).Some?
      ensures Shows(CopyOf(s', h).value.base, m) <==> CopyOf(s', h).value.version >= s.version + 1
    {
      CopyAfter(s, step, h);
    }
  }

  lemma RecordAfter(s: System, step: Step, m: Mark, v: nat)
    requires SetSince(s, m, v) && Enabled(s, step)
    ensures TakesBack(s, step, m, v) ==> Next(s, step).disk.Some? && !Shows(Next(s, step).disk.value, m)
    ensures !TakesBack(s, step, m, v) && Next(s, step).disk.Some? ==> Shows(Next(s, step).disk.value, m)
  {
    assert ChangeOf(s, step).Some? ==> CopyOf(s, Writer(step)) == Acts(s, step);
  }

  /** The mark goes exactly with a write of what was read before it was set. */
  lemma SetSinceStep(s: System, step: Step, m: Mark, v: nat)
    requires SetSince(s, m, v) && Enabled(s, step)
    ensures if TakesBack(s, step, m, v) then Next(s, step).disk.Some? && !Shows(Next(s, step).disk.value, m)
            else SetSince(Next(s, step), m, v)
  {
    RecordAfter(s, step, m, v);
    if !TakesBack(s, step, m, v) {
      var s' := Next(s, step);
      forall h: Holder | CopyOf(s', h).Some?
        ensures Shows(CopyOf(s', h).value.base, m) <==> CopyOf(s', h).value.version >= v
      {
        CopyAfter(s, step, h);
      }
    }
  }

  /** Through all of a run the record, where there is one, shows the mark. */
  ghost predicate AlwaysShows(s: System, m: Mark, steps: seq<Step>)
    requires Possible(s, steps)
    decreases |steps|
  {
    && (s.disk.Some? ==> Shows(s.disk.value, m))
    && (steps == [] || AlwaysShows(Next(s, steps[0]), m, steps[1..]))
  }

  ghost predicate NoneTakesBack(s: System, m: Mark, steps: seq<Step>, v: nat)
    requires Possible(s, steps)
    decreases |steps|
  {
    steps == [] || (!TakesBack(s, steps[0], m, v) && NoneTakesBack(Next(s, steps[0]), m, steps[1..], v))
  }

  lemma {:induction false} StandsExactly(s: System, m: Mark, steps: seq<Step>, v: nat)
    requires SetSince(s, m, v) && Possible(s, steps)
    ensures AlwaysShows(s, m, steps) <==> NoneTakesBack(s, m, steps, v)
    decreases |steps|
  {
    if steps == [] {
    } else {
      SetSinceStep(s, steps[0], m, v);
      if !TakesBack(s, steps[0], m, v) {
        StandsExactly(Next(s, steps[0]), m, steps[1..], v);
      }
    }
  }

  ghost predicate NoneSets(s: System, m: Mark, steps: seq<Step>)
    requires Possible(s, steps)
    decreases |steps|
  {
    steps == [] || (!Sets(s, steps[0], m) && NoneSets(Next(s, steps[0]), m, steps[1..]))
  }

  lemma {:induction false} UnsetUntil(s: System, m: Mark, steps: seq<Step>)
    requires Sound(s) && Unset(s, m) && Possible(s, steps) && NoneSets(s, m, steps)
    ensures Sound(After(s, steps)) && Unset(After(s, steps), m)
    decreases |steps|
  {
    if steps == [] {
    } else {
      SoundStays(s, steps[0]);
      StaysUnset(s, steps[0], m);
      UnsetUntil(Next(s, steps[0]), m, steps[1..]);
    }
  }

  lemma FirstSetSince(m: Mark, before: seq<Step>, step: Step)
    requires Possible(INITIAL, before) && NoneSets(INITIAL, m, before)
    requires Enabled(After(INITIAL, before), step) && Sets(After(INITIAL, before), step, m)
    ensures var s := After(INITIAL, before); Sound(Next(s, step)) && SetSince(Next(s, step), m, s.version + 1)
  {
    UnsetUntil(INITIAL, m, before);
    SoundStays(After(INITIAL, before), step);
    FirstSets(After(INITIAL, before), step, m);
  }

  // ----- The end -----

  /** A record that shows the end the supervisor recorded. */
  ghost predicate ShowsEnd(s: System, r: Record) {
    s.supervisor.SupervisorDone? && r.finishedAt == Some(s.supervisor.at) && r.exitCode == Some(s.supervisor.code)
  }

  ghost predicate EndOrNone(s: System, r: Record) {
    if r.finishedAt.Some? then ShowsEnd(s, r) else r.exitCode.None?
  }

  /** The record and every copy show that end or none. */
  ghost predicate OneEnd(s: System) {
    && (s.disk.Some? ==> EndOrNone(s, s.disk.value))
    && (forall h: Holder :: CopyOf(s, h).Some? ==> EndOrNone(s, CopyOf(s, h).value.base))
  }

  /** The end changes only when it is first recorded. */
  lemma EndOrNoneStays(s: System, step: Step, r: Record)
    requires Sound(s) && Enabled(s, step) && EndOrNone(s, r)
    ensures EndOrNone(Next(s, step), r)
  {
  }

  lemma RecordHasOneEnd(s: System, step: Step)
    requires Sound(s) && OneEnd(s) && Enabled(s, step)
    ensures Next(s, step).disk.Some? ==> EndOrNone(Next(s, step), Next(s, step).disk.value)
  {
    assert ChangeOf(s, step).Some? ==> CopyOf(s, Writer(step)) == Acts(s, step);
  }

  lemma OneEndStays(s: System, step: Step)
    requires Sound(s) && OneEnd(s) && Enabled(s, step)
    ensures OneEnd(Next(s, step))
  {
    var s' := Next(s, step);
    RecordHasOneEnd(s, step);
    if s.disk.Some? { EndOrNoneStays(s, step, s.disk.value); }
    forall h: Holder | CopyOf(s', h).Some? ensures EndOrNone(s', CopyOf(s', h).value.base) {
      CopyAfter(s, step, h);
      if CopyOf(s, h).Some? { EndOrNoneStays(s, step, CopyOf(s, h).value.base); }
    }
  }

  lemma {:induction false} RunsHaveOneEnd(s: System, steps: seq<Step>)
    requires Sound(s) && OneEnd(s) && Possible(s, steps)
    ensures Sound(After(s, steps)) && OneEnd(After(s, steps))
    decreases |steps|
  {
    if steps == [] {
    } else {
      SoundStays(s, steps[0]);
      OneEndStays(s, steps[0]);
      RunsHaveOneEnd(Next(s, steps[0]), steps[1..]);
    }
  }

  /** Through all of a run the record, where there is one, shows that end. */
  ghost predicate AlwaysShowsEnd(s: System, steps: seq<Step>)
    requires Possible(s, steps)
    decreases |steps|
  {
    && (s.disk.Some? ==> ShowsEnd(s, s.disk.value))
    && (steps == [] || AlwaysShowsEnd(Next(s, steps[0]), steps[1..]))
  }

  lemma {:induction false} AnyEndIsTheEnd(s: System, steps: seq<Step>)
    requires Sound(s) && OneEnd(s) && Possible(s, steps)
    ensures AlwaysShowsEnd(s, steps) <==> AlwaysShows(s, EndMark, steps)
    decreases |steps|
  {
    if steps == [] {
    } else {
      SoundStays(s, steps[0]);
      OneEndStays(s, steps[0]);
      AnyEndIsTheEnd(Next(s, steps[0]), steps[1..]);
    }
  }

  /** In every possible run, the end that the supervisor records stands for good exactly
      when nobody writes afterwards what they had read before it was recorded. */
  lemma EndStandsExactly(before: seq<Step>, later: seq<Step>)
    requires Possible(INITIAL, before) && Enabled(After(INITIAL, before), FinalSave)
    requires Possible(Next(After(INITIAL, before), FinalSave), later)
    ensures var s := After(INITIAL, before);
      AlwaysShowsEnd(Next(s, FinalSave), later) <==> NoneTakesBack(Next(s, FinalSave), EndMark, later, s.version + 1)
  {
    var s := After(INITIAL, before);
    RunsHaveOneEnd(INITIAL, before);
    SoundStays(s, FinalSave);
    OneEndStays(s, FinalSave);
    FirstSets(s, FinalSave, EndMark);
    StandsExactly(Next(s, FinalSave), EndMark, later, s.version + 1);
    AnyEndIsTheEnd(Next(s, FinalSave), later);
  }

  /** However a run went, a record that shows an end shows how: stopped if it was, and
      otherwise by the code the supervisor recorded. */
  lemma EndDecidesState(steps: seq<Step>)
    requires Possible(INITIAL, steps)
    ensures var s := After(INITIAL, steps);
      s.disk.Some? && s.disk.value.finishedAt.Some? ==>
        && s.supervisor.SupervisorDone?
        && StateOf(s.disk.value, s.alive) ==
           if s.disk.value.stopped then Stopped else if s.supervisor.code == 0 then Finished else Failed
  {
    RunsHaveOneEnd(INITIAL, steps);
  }

  // ----- A stop -----

  lemma {:induction false} LastShows(s: System, m: Mark, steps: seq<Step>)
    requires Possible(s, steps) && AlwaysShows(s, m, steps)
    ensures After(s, steps).disk.Some? ==> Shows(After(s, steps).disk.value, m)
    decreases |steps|
  {
    if steps == [] {
    } else {
      LastShows(Next(s, steps[0]), m, steps[1..]);
    }
  }

  /** In every possible run, the first stop that is recorded stands for good exactly when
      nobody writes afterwards, but to stop it too, what they had read before; the run
      then shows as stopped once it has ended. */
  lemma StopStandsExactly(before: seq<Step>, k: nat, later: seq<Step>)
    requires Possible(INITIAL, before) && NoneSets(INITIAL, StopMark, before)
    requires Enabled(After(INITIAL, before), StopSaves(k))
    requires Possible(Next(After(INITIAL, before), StopSaves(k)), later)
    ensures var s := After(INITIAL, before); var s' := Next(s, StopSaves(k));
      && (AlwaysShows(s', StopMark, later) <==> NoneTakesBack(s', StopMark, later, s.version + 1))
      && (NoneTakesBack(s', StopMark, later, s.version + 1) ==>
            var e := After(s', later);
            e.disk.Some? && e.disk.value.finishedAt.Some? ==> StateOf(e.disk.value, e.alive) == Stopped)
  {
    var s := After(INITIAL, before);
    var s' := Next(s, StopSaves(k));
    FirstSetSince(StopMark, before, StopSaves(k));
    StandsExactly(s', StopMark, later, s.version + 1);
    if AlwaysShows(s', StopMark, later) { LastShows(s', StopMark, later); }
  }

  // ----- When an answer is delivered once -----

  /** The record, where there is one, shows as gathered, and no gather delivers. */
  ghost predicate GatheredForGood(s: System, steps: seq<Step>)
    requires Possible(s, steps)
    decreases |steps|
  {
    && (s.disk.Some? ==> s.disk.value.gathered)
    && (steps == [] || (!steps[0].GatherEnds? && GatheredForGood(Next(s, steps[0]), steps[1..])))
  }

  /** A write or a delivery, marked or not, of what was read before version `v`. */
  ghost predicate FromBefore(s: System, step: Step, v: nat)
    requires Enabled(s, step)
  {
    (ChangeOf(s, step).Some? || step.GatherEnds?) && CopyOf(s, Writer(step)).value.version < v
  }

  ghost predicate NoneFromBefore(s: System, steps: seq<Step>, v: nat)
    requires Possible(s, steps)
    decreases |steps|
  {
    steps == [] || (!FromBefore(s, steps[0], v) && NoneFromBefore(Next(s, steps[0]), steps[1..], v))
  }

  /** A gather that may deliver has read no mark. */
  lemma DeliversFromBefore(s: System, step: Step, v: nat)
    requires Sound(s) && SetSince(s, GatherMark, v) && Enabled(s, step)
    ensures FromBefore(s, step, v) <==> step.GatherEnds? || TakesBack(s, step, GatherMark, v)
  {
    assert ChangeOf(s, step).Some? ==> CopyOf(s, Writer(step)) == Acts(s, step);
    if step.GatherEnds? {
      assert CopyOf(s, ByGather(step.k)) == Some(s.gathers[step.k].copy);
    }
  }

  lemma {:induction false} GatheredExactly(s: System, steps: seq<Step>, v: nat)
    requires Sound(s) && SetSince(s, GatherMark, v) && Possible(s, steps)
    ensures GatheredForGood(s, steps) <==> NoneFromBefore(s, steps, v)
    decreases |steps|
  {
    if steps == [] {
    } else {
      DeliversFromBefore(s, steps[0], v);
      SoundStays(s, steps[0]);
      SetSinceStep(s, steps[0], GatherMark, v);
      if !TakesBack(s, steps[0], GatherMark, v) {
        GatheredExactly(Next(s, steps[0]), steps[1..], v);
      }
    }
  }

  /** In every possible run, from the first gather that saves its mark, the record shows
      as gathered and no gather delivers the answer again, exactly when nobody writes or
      delivers afterwards what they had read before. */
  lemma DeliveredOnceExactly(before: seq<Step>, k: nat, later: seq<Step>)
    requires Possible(INITIAL, before) && NoneSets(INITIAL, GatherMark, before)
    requires Enabled(After(INITIAL, before), GatherEnds(k, true))
    requires Possible(Next(After(INITIAL, before), GatherEnds(k, true)), later)
    ensures var s := After(INITIAL, before); var s' := Next(s, GatherEnds(k, true));
      GatheredForGood(s', later) <==> NoneFromBefore(s', later, s.version + 1)
  {
    var s := After(INITIAL, before);
    FirstSetSince(GatherMark, before, GatherEnds(k, true));
    GatheredExactly(Next(s, GatherEnds(k, true)), later, s.version + 1);
  }

  // ----- What a stale write undoes -----

  lemma TakeStep(s: System, step: Step, rest: seq<Step>)
    requires Enabled(s, step) && Possible(Next(s, step), rest)
    ensures Possible(s, [step] + rest) && After(s, [step] + rest) == After(Next(s, step), rest)
    ensures Orderly(s, [step] + rest) ==> Orderly(Next(s, step), rest)
  {
    assert ([step] + rest)[1..] == rest;
  }

  /** A run up to where its supervisor, process 1, watches its child, process 2. */
  function Watched(): System {
    System(Some(Record(Some(1), Some(2), None, None, false, false)), 3, {1, 2}, {1, 2}, StarterDone,
           Watching(1, Copy(Record(Some(1), Some(2), None, None, false, false), 3), 2), map[], map[], map[], 0, 0)
  }

  function Registered(): System {
    System(Some(Record(Some(1), None, None, None, false, false)), 2, {1}, {1}, StarterDone,
           Waiting(1), map[], map[], map[], 0, 0)
  }

  function ToRegistered(rest: seq<Step>): seq<Step> {
    [FirstSave] + ([SpawnSupervisor(1)] + ([SecondSave] + rest))
  }

  function ToWatched(rest: seq<Step>): seq<Step> {
    ToRegistered([SupervisorReads] + ([SpawnChild(2)] + ([SavePid] + rest)))
  }

  lemma ReachesRegistered(rest: seq<Step>)
    requires Possible(Registered(), rest)
    ensures Possible(INITIAL, ToRegistered(rest)) && After(INITIAL, ToRegistered(rest)) == After(Registered(), rest)
    ensures Orderly(INITIAL, ToRegistered(rest)) ==> Orderly(Registered(), rest)
  {
    var s1 := Next(INITIAL, FirstSave);
    var s2 := Next(s1, SpawnSupervisor(1));
    assert Next(s2, SecondSave) == Registered();
    TakeStep(s2, SecondSave, rest);
    TakeStep(s1, SpawnSupervisor(1), [SecondSave] + rest);
    TakeStep(INITIAL, FirstSave, [SpawnSupervisor(1)] + ([SecondSave] + rest));
  }

  lemma ReachesWatched(rest: seq<Step>)
    requires Possible(Watched(), rest)
    ensures Possible(INITIAL, ToWatched(rest)) && After(INITIAL, ToWatched(rest)) == After(Watched(), rest)
    ensures Orderly(INITIAL, ToWatched(rest)) ==> Orderly(Watched(), rest)
  {
    var s1 := Next(Registered(), SupervisorReads);
    var s2 := Next(s1, SpawnChild(2));
    assert Next(s2, SavePid) == Watched();
    TakeStep(s2, SavePid, rest);
    TakeStep(s1, SpawnChild(2), [SavePid] + rest);
    TakeStep(Registered(), SupervisorReads, [SpawnChild(2)] + ([SavePid] + rest));
    ReachesRegistered([SupervisorReads] + ([SpawnChild(2)] + ([SavePid] + rest)));
  }

  /** A stop reads the record and finds the run going on. */
  function Asks(rest: seq<Step>): seq<Step> {
    [StopReads(0)] + ([StopTests(0)] + rest)
  }

  lemma StopAsks(rest: seq<Step>) returns (s: System)
    ensures s == Watched().(stops := map[0 := Request(Read(Watched()), true)])
    ensures Possible(s, rest) ==>
      && Possible(Watched(), Asks(rest)) && After(Watched(), Asks(rest)) == After(s, rest)
      && (Orderly(Watched(), Asks(rest)) ==> Orderly(s, rest))
  {
    var s1 := Next(Watched(), StopReads(0));
    s := Next(s1, StopTests(0));
    assert s.stops == map[0 := Request(Read(Watched()), true)];
    if Possible(s, rest) {
      TakeStep(s1, StopTests(0), rest);
      TakeStep(Watched(), StopReads(0), [StopTests(0)] + rest);
    }
  }

  /** The child ends well, and the supervisor records the end. */
  function Ends(rest: seq<Step>): seq<Step> {
    [Dies(2)] + ([ChildEnded(100, 0)] + ([FinalSave] + rest))
  }

  lemma EndsWell(s: System, rest: seq<Step>) returns (s': System)
    requires s.supervisor == Watched().supervisor && s.alive == {1, 2} && s.disk.Some?
    ensures s' == s.(disk := Some(Apply(s.disk.value, Finish(100, 0))), version := s.version + 1, alive := {},
                     supervisor := SupervisorDone(1, 100, 0))
    ensures Possible(s', rest) ==>
      && Possible(s, Ends(rest)) && After(s, Ends(rest)) == After(s', rest)
      && (Orderly(s, Ends(rest)) ==> Orderly(s', rest))
  {
    var s1 := Next(s, Dies(2));
    var s2 := Next(s1, ChildEnded(100, 0));
    s' := Next(s2, FinalSave);
    assert s'.alive == {};
    if Possible(s', rest) {
      TakeStep(s2, FinalSave, rest);
      TakeStep(s1, ChildEnded(100, 0), [FinalSave] + rest);
      TakeStep(s, Dies(2), [ChildEnded(100, 0)] + ([FinalSave] + rest));
    }
  }

  function ToFinished(rest: seq<Step>): seq<Step> {
    Asks(Ends(rest))
  }

  lemma ReachesFinished(rest: seq<Step>) returns (s: System)
    ensures s.disk.Some? && StateOf(s.disk.value, s.alive) == Finished
    ensures s.version == 4 && s.alive == {}
    ensures s.stops == map[0 := Request(Copy(Watched().disk.value, 3), true)]
    ensures s.gathers == map[] && !s.disk.value.gathered && s.delivered == 0 && s.failedGathers == 0
    ensures Possible(s, rest) ==>
      && Possible(Watched(), ToFinished(rest)) && After(Watched(), ToFinished(rest)) == After(s, rest)
      && (Orderly(Watched(), ToFinished(rest)) ==> Orderly(s, rest))
  {
    var s1 := StopAsks(Ends(rest));
    s := EndsWell(s1, rest);
  }

  /** The run ends as finished while the stop that read it is still pending. */
  lemma EndsWithStopPending()
    ensures var steps := ToWatched(ToFinished([]));
      && Possible(INITIAL, steps)
      && var s := After(INITIAL, steps);
         s.disk.Some? && StateOf(s.disk.value, s.alive) == Finished && 0 in s.stops
  {
    var s := ReachesFinished([]);
    ReachesWatched(ToFinished([]));
  }

  /** Without the freshness of every write the end of a run can be lost: a stop that
      read before the final save and writes after it clears the end, and the run that
      had finished shows as lost. */
  lemma StaleStopLosesTheEnd()
    ensures var steps := ToWatched(ToFinished([StopSaves(0)]));
      && Possible(INITIAL, steps) && !Orderly(INITIAL, steps)
      && var s := After(INITIAL, steps);
         s.disk.Some? && s.disk.value.finishedAt.None? && StateOf(s.disk.value, s.alive) == Lost
  {
    var s := ReachesFinished([StopSaves(0)]);
    TakeStep(s, StopSaves(0), []);
    assert [StopSaves(0)] + [] == [StopSaves(0)];
    assert !Orderly(s, [StopSaves(0)]);
    ReachesWatched(ToFinished([StopSaves(0)]));
  }

  /** A gather reads the record, finds the run over, delivers its answer and marks it. */
  function Gathers(k: nat, rest: seq<Step>): seq<Step> {
    [GatherReads(k)] + ([GatherTests(k)] + ([GatherEnds(k, true)] + rest))
  }

  lemma GatherFindsOver(s: System, k: nat, rest: seq<Step>) returns (s': System)
    requires s.disk.Some? && !s.disk.value.gathered && !StateOf(s.disk.value, s.alive).Running? && k !in s.gathers
    ensures s' == s.(gathers := s.gathers[k := Request(Read(s), true)])
    ensures Possible(s', rest) ==>
      var steps := [GatherReads(k)] + ([GatherTests(k)] + rest);
      Possible(s, steps) && After(s, steps) == After(s', rest)
  {
    var s1 := Next(s, GatherReads(k));
    s' := Next(s1, GatherTests(k));
    if Possible(s', rest) {
      TakeStep(s1, GatherTests(k), rest);
      TakeStep(s, GatherReads(k), [GatherTests(k)] + rest);
    }
  }

  lemma GathersOnce(s: System, k: nat, rest: seq<Step>) returns (s': System)
    requires s.disk.Some? && !s.disk.value.gathered && !StateOf(s.disk.value, s.alive).Running? && k !in s.gathers
    ensures s' == s.(disk := Some(Apply(s.disk.value, MarkGathered)), version := s.version + 1,
                     delivered := s.delivered + 1)
    ensures Possible(s', rest) ==> Possible(s, Gathers(k, rest)) && After(s, Gathers(k, rest)) == After(s', rest)
  {
    var s1 := GatherFindsOver(s, k, [GatherEnds(k, true)] + rest);
    s' := Next(s1, GatherEnds(k, true));
    assert s'.gathers == s.gathers;
    if Possible(s', rest) { TakeStep(s1, GatherEnds(k, true), rest); }
  }

  /** Two gathers read before either saves: both deliver the answer, and both marks are saved. */
  lemma TwoGathersDeliverTwice()
    ensures var steps :=
        ToWatched(ToFinished([GatherReads(1)] + ([GatherTests(1)] + Gathers(0, [GatherEnds(1, true)]))));
      && Possible(INITIAL, steps)
      && After(INITIAL, steps).delivered == 2 && After(INITIAL, steps).failedGathers == 0
  {
    var last := [GatherEnds(1, true)];
    var rest := [GatherReads(1)] + ([GatherTests(1)] + Gathers(0, last));
    var s := ReachesFinished(rest);
    var s1 := Next(s, GatherReads(1));
    var s2 := Next(s1, GatherTests(1));
    var s3 := GathersOnce(s2, 0, last);
    assert last + [] == last;
    TakeStep(s3, GatherEnds(1, true), []);
    TakeStep(s1, GatherTests(1), Gathers(0, last));
    TakeStep(s, GatherReads(1), [GatherTests(1)] + Gathers(0, last));
    ReachesWatched(ToFinished(rest));
  }

  /** Two gathers one after the other deliver it twice as well, when a stop that read
      before the end writes the record back between them. */
  lemma StaleStopDeliversTwice()
    ensures var steps := ToWatched(ToFinished(Gathers(0, [StopSaves(0)] + Gathers(1, []))));
      && Possible(INITIAL, steps)
      && After(INITIAL, steps).delivered == 2 && After(INITIAL, steps).failedGathers == 0
  {
    var rest := [StopSaves(0)] + Gathers(1, []);
    var s := ReachesFinished(Gathers(0, rest));
    var s1 := GathersOnce(s, 0, rest);
    var s2 := Next(s1, StopSaves(0));
    var s3 := GathersOnce(s2, 1, []);
    TakeStep(s1, StopSaves(0), Gathers(1, []));
    ReachesWatched(ToFinished(Gathers(0, rest)));
  }

  function Late(): seq<Step> {
    [GatherTests(0)] + [GatherEnds(0, true)]
  }

  lemma GathersLate(s: System)
    requires s.gathers == map[0 := Request(Read(Watched()), false)] && s.alive == {}
    ensures Possible(s, Late())
    ensures var e := After(s, Late());
      e.disk.Some? && e.disk.value.gathered && StateOf(e.disk.value, e.alive) == Lost
  {
    var s1 := Next(s, GatherTests(0));
    assert [GatherEnds(0, true)] + [] == [GatherEnds(0, true)];
    TakeStep(s1, GatherEnds(0, true), []);
    TakeStep(s, GatherTests(0), [GatherEnds(0, true)]);
  }

  /** A gather that read while the run was going on, looks for its process when it has
      ended, takes the run for lost and writes that back over the end. */
  lemma LateGatherLosesTheEnd()
    ensures var steps := ToWatched([GatherReads(0)] + Ends(Late()));
      && Possible(INITIAL, steps)
      && var s := After(INITIAL, steps);
         s.disk.Some? && s.disk.value.gathered && StateOf(s.disk.value, s.alive) == Lost
  {
    var s1 := Next(Watched(), GatherReads(0));
    assert s1.gathers == map[0 := Request(Read(Watched()), false)];
    var s2 := EndsWell(s1, Late());
    GathersLate(s2);
    TakeStep(Watched(), GatherReads(0), Ends(Late()));
    ReachesWatched([GatherReads(0)] + Ends(Late()));
  }

  /** The child ends, a stop is recorded between the supervisor's last reading and its
      final save, and is overwritten. */
  function EndsOverStop(): seq<Step> {
    [Dies(2)] + ([ChildEnded(100, 0)] + ([StopSaves(0)] + [FinalSave]))
  }

  lemma OverwritesStop(s: System)
    requires s == Watched().(stops := map[0 := Request(Read(Watched()), true)])
    ensures Possible(s, EndsOverStop())
    ensures var e := After(s, EndsOverStop());
      e.disk.Some? && !e.disk.value.stopped && StateOf(e.disk.value, e.alive) == Finished
  {
    var s1 := Next(s, Dies(2));
    var s2 := Next(s1, ChildEnded(100, 0));
    var s3 := Next(s2, StopSaves(0));
    assert [FinalSave] + [] == [FinalSave];
    TakeStep(s3, FinalSave, []);
    TakeStep(s2, StopSaves(0), [FinalSave]);
    TakeStep(s1, ChildEnded(100, 0), [StopSaves(0)] + [FinalSave]);
    TakeStep(s, Dies(2), [ChildEnded(100, 0)] + ([StopSaves(0)] + [FinalSave]));
  }

  /** The run then ends as finished, though a stop was recorded. */
  lemma StopIsOverwritten()
    ensures var steps := ToWatched(Asks(EndsOverStop()));
      && Possible(INITIAL, steps)
      && var s := After(INITIAL, steps);
         s.disk.Some? && !s.disk.value.stopped && StateOf(s.disk.value, s.alive) == Finished
  {
    var s := StopAsks(EndsOverStop());
    OverwritesStop(s);
    ReachesWatched(Asks(EndsOverStop()));
  }

  // ----- The operations on the runs of a conversation -----

  /** Ids in their order of starting, each once. */
  ghost predicate Lists(order: seq<string>, runs: map<string, Record>) {
    && (forall i | 0 <= i < |order| :: order[i] in runs)
    && (forall i, j | 0 <= i < j < |order| :: order[i] != order[j])
  }

  predicate IsReady(r: Record, alive: set<nat>) {
    !r.gathered && StateOf(r, alive) != Running
  }

  /** The runs a gather delivers: ended one way or another, and not gathered yet. */
  ghost function Ready(order: seq<string>, runs: map<string, Record>, alive: set<nat>): seq<string>
    requires forall i | 0 <= i < |order| :: order[i] in runs
    decreases |order|
  {
    if order == [] then []
    else
      var last := order[|order| - 1];
      Ready(order[..|order| - 1], runs, alive) +
        (if IsReady(runs[last], alive) then [last] else [])
  }

  ghost function RunningCount(order: seq<string>, runs: map<string, Record>, alive: set<nat>): nat
    requires forall i | 0 <= i < |order| :: order[i] in runs
    decreases |order|
  {
    if order == [] then 0
    else
      RunningCount(order[..|order| - 1], runs, alive) +
      if StateOf(runs[order[|order| - 1]], alive) == Running then 1 else 0
  }

  /** The runs once the delivered ones are marked, as far as the marks could be saved. */
  ghost function Marked(runs: map<string, Record>, delivered: seq<string>, saves: string -> bool): map<string, Record> {
    map id | id in runs :: if id in delivered && saves(id) then Apply(runs[id], MarkGathered) else runs[id]
  }

  lemma MarkedStep(runs: map<string, Record>, ids: seq<string>, i: nat, saves: string -> bool)
    requires i < |ids| && ids[i] in runs && ids[i] !in ids[..i]
    ensures var before := Marked(runs, ids[..i], saves);
      && before.Keys == runs.Keys && before[ids[i]] == runs[ids[i]]
      && Marked(runs, ids[..i + 1], saves) ==
         if saves(ids[i]) then before[ids[i] := Apply(runs[ids[i]], MarkGathered)] else before
  {
    assert ids[..i + 1] == ids[..i] + [ids[i]];
  }

  class Runs {
    var runs: map<string, Record>

    /** Refuses a run that is not running; otherwise marks it and names the process to end. */
    method Stop(id: string, alive: set<nat>) returns (r: Result<Option<nat>, Option<RunState>>)
      modifies this
      ensures id !in old(runs) ==> r == Err(None) && runs == old(runs)
      ensures id in old(runs) && !StateOf(old(runs)[id], alive).Running? ==>
        r == Err(Some(StateOf(old(runs)[id], alive))) && runs == old(runs)
      ensures id in old(runs) && StateOf(old(runs)[id], alive).Running? ==>
        && runs == old(runs)[id := Apply(old(runs)[id], MarkStopped)]
        && r == Ok(if old(runs)[id].pid.Some? then old(runs)[id].pid else old(runs)[id].supervisorPid)
    {
      if id !in runs {
        return Err(None);
      }
      var run := runs[id];
      if StateOf(run, alive) != Running {
        return Err(Some(StateOf(run, alive)));
      }
      run := run.(stopped := true);
      runs := runs[id := run];
      if run.pid.Some? {
        r := Ok(run.pid);
      } else {
        r := Ok(run.supervisorPid);
      }
    }

    method Remove(id: string, alive: set<nat>) returns (removed: bool)
      modifies this
      ensures removed <==> id in old(runs) && !StateOf(old(runs)[id], alive).Running?
      ensures runs == if removed then old(runs) - {id} else old(runs)
    {
      removed := id in runs && StateOf(runs[id], alive) != Running;
      if removed {
        runs := runs - {id};
      }
    }

    method CollectReady(order: seq<string>, alive: set<nat>) returns (ready: seq<string>, stillRunning: nat)
      requires Lists(order, runs)
      ensures ready == Ready(order, runs, alive) && stillRunning == RunningCount(order, runs, alive)
    {
      ready := [];
      stillRunning := 0;
      for i := 0 to |order|
        invariant ready == Ready(order[..i], runs, alive) && stillRunning == RunningCount(order[..i], runs, alive)
      {
        var run := runs[order[i]];
        assert order[..i + 1][..i] == order[..i];
        if StateOf(run, alive) == Running {
          stillRunning := stillRunning + 1;
        } else if !run.gathered {
          ready := ready + [order[i]];
        }
      }
      assert order[..|order|] == order;
    }

    method MarkAll(ids: seq<string>, saves: string -> bool)
      requires forall i | 0 <= i < |ids| :: ids[i] in runs
      requires forall i, j | 0 <= i < j < |ids| :: ids[i] != ids[j]
      modifies this
      ensures runs == Marked(old(runs), ids, saves)
    {
      ghost var before := runs;
      for i := 0 to |ids|
        invariant runs == Marked(before, ids[..i], saves)
      {
        var id := ids[i];
        MarkedStep(before, ids, i, saves);
        if saves(id) {
          runs := runs[id := runs[id].(gathered := true)];
        }
      }
      assert ids[..|ids|] == ids;
    }

    /** Delivers every ready answer once, in order, or says how many are still running. */
    method Gather(order: seq<string>, alive: set<nat>, saves: string -> bool) returns (r: Result<seq<string>, nat>)
      requires Lists(order, runs)
      modifies this
      ensures var ready := Ready(order, old(runs), alive);
        && (ready == [] ==> r == Err(RunningCount(order, old(runs), alive)) && runs == old(runs))
        && (ready != [] ==> r == Ok(ready) && runs == Marked(old(runs), ready, saves))
    {
      var ready, stillRunning := CollectReady(order, alive);
      if ready == [] {
        return Err(stillRunning);
      }
      ReadyIsListed(order, runs, alive);
      MarkAll(ready, saves);
      r := Ok(ready);
    }
  }

  lemma ReadyOfMore(order: seq<string>, n: nat, runs: map<string, Record>, alive: set<nat>)
    requires n == |order| - 1 && forall i | 0 <= i < |order| :: order[i] in runs
    ensures Ready(order, runs, alive) == Ready(order[..n], runs, alive) +
            if !runs[order[n]].gathered && !StateOf(runs[order[n]], alive).Running? then [order[n]] else []
  {
  }

  /** The ready answers come in the order of the runs: those that were not gathered and
      whose run has left Running. */
  lemma {:induction false} ReadyAt(order: seq<string>, runs: map<string, Record>, alive: set<nat>)
      returns (at: seq<nat>)
    requires forall i | 0 <= i < |order| :: order[i] in runs
    ensures |Ready(order, runs, alive)| == |at|
    ensures forall k | 0 <= k < |at| :: at[k] < |order| && Ready(order, runs, alive)[k] == order[at[k]]
    ensures forall k, l | 0 <= k < l < |at| :: at[k] < at[l]
    ensures forall p: nat | p < |order| ::
      p in at <==> !runs[order[p]].gathered && !StateOf(runs[order[p]], alive).Running?
    decreases |order|
  {
    if order == [] {
      at := [];
    } else {
      var n := |order| - 1;
      var before := ReadyAt(order[..n], runs, alive);
      ReadyOfMore(order, n, runs, alive);
      at := before + if !runs[order[n]].gathered && !StateOf(runs[order[n]], alive).Running? then [n] else [];
    }
  }

  lemma ReadyIsListed(order: seq<string>, runs: map<string, Record>, alive: set<nat>)
    requires Lists(order, runs)
    ensures var ready := Ready(order, runs, alive);
      && (forall id <- ready :: id in runs)
      && (forall k, l | 0 <= k < l < |ready| :: ready[k] != ready[l])
  {
    var at := ReadyAt(order, runs, alive);
  }

  /** The runs of a list that are running. */
  ghost function RunningIn(order: seq<string>, runs: map<string, Record>, alive: set<nat>): set<string> {
    set id | id in order && id in runs && StateOf(runs[id], alive).Running?
  }

  lemma OneMoreRunning(init: seq<string>, last: string, order: seq<string>, runs: map<string, Record>, alive: set<nat>)
    requires Lists(order, runs) && order == init + [last]
    ensures last in runs && last !in init && Lists(init, runs)
    ensures RunningIn(order, runs, alive) ==
            RunningIn(init, runs, alive) + if StateOf(runs[last], alive).Running? then {last} else {}
  {
    assert order[|init|] == last;
    forall i | 0 <= i < |init| ensures init[i] == order[i] && init[i] in runs {}
  }

  /** The count is of the runs that are running. */
  lemma {:induction false} RunningIsCounted(order: seq<string>, runs: map<string, Record>, alive: set<nat>)
    requires Lists(order, runs)
    ensures RunningCount(order, runs, alive) == |RunningIn(order, runs, alive)|
    decreases |order|
  {
    if order == [] {
    } else {
      var init, last := order[..|order| - 1], order[|order| - 1];
      OneMoreRunning(init, last, order, runs, alive);
      RunningIsCounted(init, runs, alive);
    }
  }
}
