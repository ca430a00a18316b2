/**
 * `execute_rollover` and the commands around it as imperative code over a changing world. Every
 * way it can go, failing anywhere, is a run of the state machine.
 */
module Execute {
  import opened Text
  import opened Publish
  import opened Rollover
  import opened Machine
  import opened Safety

  /** How a publisher prunes: record by record (nsupdate) or by writing the RRset (Route 53). */
  datatype Backend = ByRecord | ByRrset

  /** The events an execution and the passing of time bring about: no command, no new certificate. */
  ghost predicate IsExecution(e: Event) {
    !e.FileChange? && !e.Forget? && !e.ScheduleJob? && !e.StartRollover? && !e.Resume? && !e.Replay?
  }

  /** The events that move a job on, and the runs of the reload command. */
  ghost predicate IsMark(e: Event) {
    e.PortsPublished? || e.SeenLive? || e.Wake? || e.ReloadSwitch? || e.ReloadReturned? || e.RemoveJob?
  }

  ghost function Marks(es: seq<Event>): seq<Event> {
    if es == [] then [] else Marks(es[..|es| - 1]) + MarkOf(es[|es| - 1])
  }

  ghost function MarkOf(e: Event): seq<Event> {
    if IsMark(e) then [e] else []
  }

  lemma MarksSnoc(es: seq<Event>, e: Event)
    ensures Marks(es + [e]) == Marks(es) + MarkOf(e)
  {
    assert (es + [e])[..|es|] == es;
  }

  /** What the execution reads and changes: the clock, the service, the name server and the job file. */
  class World {
    const ports: seq<Port>
    const window: nat
    const faults: bool
    var now: nat
    var file: string
    var live: map<Port, string>
    var zone: map<Port, History>
    var disk: Option<JobRecord>
    ghost var saved: set<JobRecord>
    ghost var exec: Exec
    ghost var origin: State
    ghost var log: seq<Event>

    ghost function View(): State
      reads this
    {
      State(ports, now, window, file, live, zone, disk, exec, saved)
    }

    /** The log is a run of the machine that leads to the world as it is. */
    ghost predicate Valid()
      reads this
    {
      Sound(View()) && Reaches(origin, log, View()) && forall e | e in log :: IsExecution(e)
    }

    ghost method Note(e: Event, before: State)
      requires Sound(before) && Reaches(origin, log, before) && Enabled(e, before) && View() == Apply(e, before)
      requires IsExecution(e) && forall e' | e' in log :: IsExecution(e')
      modifies this`log
      ensures Valid() && log == old(log) + [e] && Marks(log) == old(Marks(log)) + MarkOf(e)
    {
      SoundStep(e, before);
      ReachesNext(origin, log, before, e);
      MarksSnoc(log, e);
      log := log + [e];
    }

    /** An operation outside the program's control; it can fail only in a world with faults. */
    method Attempt() returns (ok: bool)
      ensures !faults ==> ok
    {
      ok := true;
      if faults {
        ok := *;
      }
    }

    /** Some time goes by, and at least as long as a sleep asks for. */
    method Pass(atLeast: nat)
      requires Valid()
      modifies this`now, this`log
      ensures Valid() && old(now) + atLeast <= now && Marks(log) == old(Marks(log))
    {
      ghost var before := View();
      var seconds: nat := *;
      if seconds < atLeast {
        seconds := atLeast;
      }
      now := now + seconds;
      Note(Tick(seconds), before);
    }

    /** Read the port's RRset, decide, and write it back if the hash is missing. */
    method PublishPort(p: Port) returns (ok: bool)
      requires Valid() && AtPort(View()) && exec.at.Publishing? && p == ThisPort(View())
      modifies this`zone, this`exec, this`log
      ensures Valid() && Marks(log) == old(Marks(log)) && (!faults ==> ok) && exec.Running? && exec.job == old(exec.job)
      ensures ok ==> exec.at == Publishing(old(exec.at.next) + 1)
    {
      ghost var before := View();
      var ours := zone[p][|zone[p]| - 1].rrset;
      var action := ActionFor(ours, file, Mode.Rollover, false);
      ok := Attempt();
      if !ok {
        return;
      }
      if action != AlreadyPublished {
        var next := RrsetAfterPublish(ours, file, action);
        zone := zone[p := zone[p] + [Version(now, next)]];
      }
      exec := Running(exec.job, Publishing(exec.at.next + 1));
      Note(Event.PublishPort, before);
      ok := Attempt();
    }

    /** What each mark does to the job in memory, and where the execution must stand for it. */
    ghost predicate CanMark(e: Event, r: JobRecord)
      reads this
    {
      exec.Running? &&
      match e
      case PortsPublished => exec.at == Publishing(|exec.job.ports|) && r == exec.job.Published(now)
      case SeenLive => exec.at == Checking && AllLive(View(), exec.job.ports) && r == exec.job.Reloaded(now)
      case ReloadReturned => exec.at == Reloading(true) && r == exec.job.Reloaded(now)
      case Wake =>
        && exec.at.Sleeping? && exec.at.until <= now
        && r == if exec.at.reason == BeforeReload then exec.job.WaitingReload() else exec.job.ReadyToPrune()
      case _ => false
    }

    /** The job's memory has moved on; nothing is on disk yet. */
    ghost method Marked(e: Event, job: Job)
      requires Valid() && CanMark(e, job.Record())
      modifies this`exec, this`log
      ensures Valid() && exec == Running(job.Record(), Saving) && Marks(log) == old(Marks(log)) + [e]
    {
      var before := View();
      exec := Running(job.Record(), Saving);
      Note(e, before);
    }

    method SaveJob(job: Job) returns (ok: bool)
      requires Valid() && exec == Running(job.Record(), Saving)
      modifies this`now, this`disk, this`saved, this`exec, this`log
      ensures Valid() && Marks(log) == old(Marks(log)) && (!faults ==> ok)
      ensures exec == Running(job.Record(), if ok then StartPc(job.phase) else Saving)
    {
      Pass(0);
      ghost var before := View();
      ok := Attempt();
      if ok {
        disk := Some(job.Record());
        saved := saved + {job.Record()};
        exec := Running(job.Record(), StartPc(job.phase));
        Note(Save, before);
      }
    }

    /** Sleep to the job's deadline for this wait. */
    method Sleep(job: Job, reason: WaitReason)
      requires Valid() && exec == Running(job.Record(), if reason == BeforeReload then Checking else PruneWait)
      modifies this`now, this`exec, this`log
      ensures Valid() && Marks(log) == old(Marks(log)) && exec.Running? && exec.job == job.Record()
      ensures exec.at.Sleeping? && exec.at.reason == reason && exec.at.until <= now
    {
      var deadline := if reason == BeforeReload then job.reloadAfter else job.pruneAfter;
      var seconds := Remaining(deadline, now);
      ghost var before := View();
      exec := Running(job.Record(), Sleeping(reason, now, now + seconds));
      Note(if reason == BeforeReload then StartReloadSleep else StartPruneSleep, before);
      Pass(seconds);
    }

    /** Ask every port for its certificate; one that cannot be reached counts as not live. */
    method LiveMatchesFile(ports: seq<Port>) returns (all: bool)
      requires Valid() && PortsKnown(View(), ports)
      ensures all ==> ports != [] && forall i | 0 <= i < |ports| :: EqIgnoreCase(live[ports[i]], file)
      ensures !faults && ports != [] && (forall i | 0 <= i < |ports| :: EqIgnoreCase(live[ports[i]], file)) ==> all
    {
      if ports == [] {
        return false;
      }
      for i := 0 to |ports|
        invariant forall k | 0 <= k < i :: EqIgnoreCase(live[ports[k]], file)
      {
        var reached := Attempt();
        if !reached || !EqIgnoreCase(live[ports[i]], file) {
          return false;
        }
      }
      all := true;
    }

    /** The reload command is run: it may switch any of the ports, whether or not it reports success. */
    method RunReload(ports: seq<Port>) returns (ok: bool, ghost switched: set<Port>)
      requires Valid() && exec.Running? && exec.at.Reloading? && exec.job.ports == ports
      modifies this`live, this`exec, this`log
      ensures Valid() && (!faults ==> ok) && exec == Running(old(exec.job), Reloading(true))
      ensures log == old(log) + [ReloadSwitch(switched)] && (forall p | p in switched :: p in ports)
      ensures live == Presented(old(live), switched, file)
      ensures Marks(log) == old(Marks(log)) + [ReloadSwitch(switched)]
    {
      ghost var before := View();
      var reached: set<Port> := *;
      reached := set p | p in reached && p in ports;
      switched := reached;
      live := Presented(live, reached, file);
      NoteReload(switched, before);
      ok := Attempt();
    }

    ghost method NoteReload(switched: set<Port>, before: State)
      requires Sound(before) && Reaches(origin, log, before) && forall e | e in log :: IsExecution(e)
      requires Enabled(ReloadSwitch(switched), before)
      requires View() == before.(live := Apply(ReloadSwitch(switched), before).live)
      modifies this`exec, this`log
      ensures Valid() && exec == Running(before.exec.job, Reloading(true))
      ensures log == old(log) + [ReloadSwitch(switched)] && Marks(log) == old(Marks(log)) + [ReloadSwitch(switched)]
    {
      exec := Running(exec.job, Reloading(true));
      Note(ReloadSwitch(switched), before);
    }

    /** Delete one stale record, if the server still has it; a failed request may have taken effect. */
    method DeleteRecord(p: Port, record: DaneTlsa) returns (ok: bool)
      requires Valid() && AtPort(View()) && exec.at.Pruning? && p == ThisPort(View()) && record.IsStale(live[p])
      modifies this`zone, this`log
      ensures Valid() && Marks(log) == old(Marks(log)) && (!faults ==> ok) && AtPort(View()) && p == ThisPort(View())
      ensures Current(View(), p) == Without(old(Current(View(), p)), record)
           || (!ok && Current(View(), p) == old(Current(View(), p)))
    {
      ghost var before := View();
      ok := Attempt();
      if ok {
        var ours := zone[p][|zone[p]| - 1].rrset;
        if record in ours {
          zone := zone[p := zone[p] + [Version(now, Without(ours, record))]];
          Note(DeleteStaleRecord(record), before);
        } else {
          WithoutAbsent(ours, record);
        }
        ok := Attempt();
      }
    }

    method WriteRrset(p: Port) returns (ok: bool)
      requires Valid() && Enabled(WritePruned, View()) && p == ThisPort(View())
      modifies this`zone, this`log
      ensures Valid() && Marks(log) == old(Marks(log)) && (!faults ==> ok) && AtPort(View()) && p == ThisPort(View())
      ensures Current(View(), p) == AfterPrune(old(Current(View(), p)), live[p])
           || (!ok && Current(View(), p) == old(Current(View(), p)))
    {
      ghost var before := View();
      ok := Attempt();
      if ok {
        zone := zone[p := zone[p] + [Version(now, AfterPrune(zone[p][|zone[p]| - 1].rrset, live[p]))]];
        Note(WritePruned, before);
        ok := Attempt();
      }
    }

    /** One delete for each stale record that the port's RRset held (`Nsupdate::prune_tlsa`). */
    method PruneByRecord(p: Port) returns (ok: bool)
      requires Valid() && AtPort(View()) && exec.at.Pruning? && p == ThisPort(View())
      modifies this`zone, this`log
      ensures Valid() && Marks(log) == old(Marks(log)) && (!faults ==> ok) && AtPort(View()) && p == ThisPort(View())
      ensures ok ==> StaleDane(Current(View(), p), live[p]) == []
    {
      ok := true;
      var stale := StaleDane(zone[p][|zone[p]| - 1].rrset, live[p]);
      AllStale(Current(View(), p), live[p]);
      for i := 0 to |stale|
        invariant Valid() && Marks(log) == old(Marks(log)) && (!faults ==> ok) && AtPort(View()) && p == ThisPort(View())
        invariant ok && StaleAmong(Current(View(), p), live[p], stale[i..])
      {
        OneLess(Current(View(), p), live[p], stale, i);
        ok := DeleteRecord(p, stale[i]);
        if !ok {
          return;
        }
      }
      NoneLeft(Current(View(), p), live[p], stale);
    }

    /** One write of what is left, if anything was stale (`Route53::prune_tlsa`). */
    method PruneByRrset(p: Port) returns (ok: bool)
      requires Valid() && AtPort(View()) && exec.at.Pruning? && p == ThisPort(View())
      modifies this`zone, this`log
      ensures Valid() && Marks(log) == old(Marks(log)) && (!faults ==> ok) && AtPort(View()) && p == ThisPort(View())
      ensures ok ==> StaleDane(Current(View(), p), live[p]) == []
    {
      ok := true;
      ghost var ours := Current(View(), p);
      if StaleDane(zone[p][|zone[p]| - 1].rrset, live[p]) != [] {
        ok := WriteRrset(p);
        PruneStable(ours, live[p]);
      }
    }

    /** Prune one port to the key it presents; no answer from the port is a failure. */
    method PrunePort(p: Port, backend: Backend) returns (ok: bool)
      requires Valid() && AtPort(View()) && exec.at.Pruning? && p == ThisPort(View())
      modifies this`zone, this`exec, this`log
      ensures Valid() && Marks(log) == old(Marks(log)) && (!faults ==> ok) && exec.Running? && exec.job == old(exec.job)
      ensures ok ==> exec.at == Pruning(old(exec.at.next) + 1)
    {
      ok := Attempt();
      if !ok {
        return;
      }
      match backend {
        case ByRecord => ok := PruneByRecord(p);
        case ByRrset => ok := PruneByRrset(p);
      }
      if ok {
        NextPort(p);
      }
    }

    /** Nothing is stale at this port any more. */
    ghost method NextPort(p: Port)
      requires Valid() && AtPort(View()) && exec.at.Pruning? && p == ThisPort(View())
      requires StaleDane(Current(View(), p), live[p]) == []
      modifies this`exec, this`log
      ensures Valid() && Marks(log) == old(Marks(log)) && exec == Running(old(exec.job), Pruning(old(exec.at.next) + 1))
    {
      var before := View();
      exec := Running(exec.job, Pruning(exec.at.next + 1));
      Note(PortPruned, before);
    }

    /** Leaving with an error is no different from being killed there. */
    ghost method Abort()
      requires Valid() && exec.Running?
      modifies this`exec, this`log
      ensures Valid() && Marks(log) == old(Marks(log)) && exec == Idle
    {
      var before := View();
      exec := Idle;
      Note(Crash, before);
    }

    method RemoveJobFile() returns (ok: bool)
      requires Valid() && exec.Running? && exec.at == Pruning(|exec.job.ports|)
      modifies this`disk, this`exec, this`log
      ensures Valid() && (!faults ==> ok)
      ensures if ok then disk == None && exec == Idle && Marks(log) == old(Marks(log)) + [RemoveJob] else View() == old(View())
    {
      ghost var before := View();
      ok := Attempt();
      if ok {
        disk := None;
        exec := Idle;
        Note(RemoveJob, before);
      }
    }
  }

  // ---- the phases ----

  /** The execution stands at `pc` with what `job` holds in memory. */
  ghost predicate StandsAt(w: World, job: Job, pc: Pc)
    reads w, job
  {
    w.Valid() && w.exec == Running(job.Record(), pc)
  }

  method DoPublishPhase(w: World, job: Job) returns (ok: bool)
    requires StandsAt(w, job, Publishing(0))
    modifies w, job
    ensures w.Valid() && w.exec.Running? && w.origin == old(w.origin) && (!w.faults ==> ok)
    ensures ok ==> StandsAt(w, job, Checking) && Marks(w.log) == old(Marks(w.log)) + [PortsPublished]
  {
    for i := 0 to |job.ports|
      invariant StandsAt(w, job, Publishing(i)) && w.origin == old(w.origin) && Marks(w.log) == old(Marks(w.log))
    {
      w.Pass(0);
      ok := w.PublishPort(job.ports[i]);
      if !ok {
        return;
      }
    }
    w.Pass(0);
    job.MarkPublished(w.now);
    w.Marked(PortsPublished, job);
    ok := w.SaveJob(job);
  }

  /** Every port presents the key in the certificate file. */
  ghost predicate AllPresent(w: World, ports: seq<Port>)
    reads w
  {
    ports != [] && forall i | 0 <= i < |ports| :: ports[i] in w.live && EqIgnoreCase(w.live[ports[i]], w.file)
  }

  /** Sleep to the saved deadline, unless every port already presents the new key. */
  method WaitBeforeReloadPhase(w: World, job: Job) returns (ok: bool, skipReload: bool)
    requires StandsAt(w, job, Checking)
    modifies w, job
    ensures w.Valid() && w.exec.Running? && w.origin == old(w.origin) && (!w.faults ==> ok)
    ensures ok ==> StandsAt(w, job, if skipReload then PruneWait else Reloading(false))
    ensures ok ==> Marks(w.log) == old(Marks(w.log)) + [if skipReload then SeenLive else Wake]
    ensures skipReload ==> AllPresent(w, job.ports)
    ensures !w.faults && AllPresent(w, job.ports) ==> skipReload
  {
    w.Pass(0);
    skipReload := w.LiveMatchesFile(job.ports);
    if skipReload {
      job.MarkAlreadyLive(w.now);
      w.Marked(SeenLive, job);
      ok := w.SaveJob(job);
    } else {
      ok := SleepToReload(w, job);
    }
  }

  method SleepToReload(w: World, job: Job) returns (ok: bool)
    requires StandsAt(w, job, Checking)
    modifies w`now, w`disk, w`saved, w`exec, w`log, job
    ensures w.Valid() && w.exec.Running? && (!w.faults ==> ok)
    ensures ok ==> StandsAt(w, job, Reloading(false)) && Marks(w.log) == old(Marks(w.log)) + [Wake]
  {
    w.Pass(0);
    w.Sleep(job, BeforeReload);
    job.MarkWaitingReload();
    w.Marked(Wake, job);
    ok := w.SaveJob(job);
  }

  method ReloadPhase(w: World, job: Job) returns (ok: bool, ghost switched: set<Port>)
    requires StandsAt(w, job, Reloading(false))
    modifies w, job
    ensures w.Valid() && w.exec.Running? && w.origin == old(w.origin) && (!w.faults ==> ok)
    ensures ok ==> StandsAt(w, job, PruneWait)
    ensures ok ==> Marks(w.log) == old(Marks(w.log)) + [ReloadSwitch(switched), ReloadReturned]
  {
    w.Pass(0);
    ok, switched := w.RunReload(job.ports);
    if ok {
      ok := SaveReloaded(w, job);
    }
  }

  method SaveReloaded(w: World, job: Job) returns (ok: bool)
    requires StandsAt(w, job, Reloading(true))
    modifies w, job
    ensures w.Valid() && w.exec.Running? && w.origin == old(w.origin) && (!w.faults ==> ok)
    ensures ok ==> StandsAt(w, job, PruneWait) && Marks(w.log) == old(Marks(w.log)) + [ReloadReturned]
  {
    w.Pass(0);
    job.MarkReloaded(w.now);
    w.Marked(ReloadReturned, job);
    ok := w.SaveJob(job);
  }

  method WaitBeforePrunePhase(w: World, job: Job) returns (ok: bool)
    requires StandsAt(w, job, PruneWait)
    modifies w, job
    ensures w.Valid() && w.exec.Running? && w.origin == old(w.origin) && (!w.faults ==> ok)
    ensures ok ==> StandsAt(w, job, Pruning(0)) && Marks(w.log) == old(Marks(w.log)) + [Wake]
  {
    w.Pass(0);
    w.Sleep(job, BeforePrune);
    job.MarkReadyToPrune();
    w.Marked(Wake, job);
    ok := w.SaveJob(job);
  }

  method PrunePhase(w: World, job: Job, backend: Backend) returns (ok: bool)
    requires StandsAt(w, job, Pruning(0))
    modifies w
    ensures w.Valid() && w.origin == old(w.origin) && (!w.faults ==> ok)
    ensures if ok then w.exec == Idle && w.disk == None else w.exec.Running?
    ensures ok ==> Marks(w.log) == old(Marks(w.log)) + [RemoveJob]
  {
    for i := 0 to |job.ports|
      invariant StandsAt(w, job, Pruning(i)) && w.origin == old(w.origin) && Marks(w.log) == old(Marks(w.log))
    {
      w.Pass(0);
      ok := w.PrunePort(job.ports[i], backend);
      if !ok {
        return;
      }
    }
    w.Pass(0);
    ok := w.RemoveJobFile();
  }

  // ---- the sequence ----

  /**
   * What a completed execution did, from the phase with this index to the one before `end`: the
   * reload command is run once, unless the key was seen in service.
   */
  function Steps(start: nat, end: nat, skipReload: bool, switched: set<Port>): seq<Event>
    requires start <= end <= 5
  {
    if start == end then []
    else
      Steps(start, end - 1, skipReload, switched) +
      match end
      case 1 => [PortsPublished]
      case 2 => if skipReload then [SeenLive] else [Wake]
      case 3 => if skipReload then [] else [ReloadSwitch(switched), ReloadReturned]
      case 4 => [Wake]
      case _ => [RemoveJob]
  }

  /** Where the execution stands before the phase with this index. */
  function PcBefore(index: nat, skipReload: bool): Pc {
    match index
    case 0 => Publishing(0)
    case 1 => Checking
    case 2 => if skipReload then PruneWait else Reloading(false)
    case 3 => PruneWait
    case _ => Pruning(0)
  }

  /** Between two phases: the next one is due, or all have run and the job is gone. */
  ghost predicate Between(w: World, job: Job, index: nat, skipReload: bool)
    reads w, job
  {
    if index < 5 then StandsAt(w, job, PcBefore(index, skipReload)) else w.Valid() && w.exec == Idle && w.disk == None
  }

  /** One phase; the wait before the reload may find it unnecessary. */
  method RunPhase(w: World, job: Job, index: nat, backend: Backend)
    returns (ok: bool, skipReload: bool, ghost switched: set<Port>)
    requires index < 5 && StandsAt(w, job, PcBefore(index, false))
    modifies w, job
    ensures w.Valid() && w.origin == old(w.origin) && (!w.faults ==> ok)
    ensures if ok then Between(w, job, index + 1, skipReload) else w.exec.Running?
    ensures ok ==> Marks(w.log) == old(Marks(w.log)) + Steps(index, index + 1, skipReload, switched)
    ensures skipReload ==> index == 1
  {
    skipReload, switched := false, {};
    match Phases(true)[index] {
      case DoPublish => ok := DoPublishPhase(w, job);
      case DoReload => ok, switched := ReloadPhase(w, job);
      case DoPrune => ok := PrunePhase(w, job, backend);
      case DoWait(reason) =>
        if reason == BeforeReload {
          ok, skipReload := WaitBeforeReloadPhase(w, job);
        } else {
          ok := WaitBeforePrunePhase(w, job);
        }
    }
  }

  /** Up to the wait before the reload nothing depends on what was switched, and up to it nothing on the skip. */
  lemma StepsBefore(start: nat, end: nat, skipReload: bool, switched: set<Port>, later: bool, later': set<Port>)
    requires start <= end <= 2 && (end == 2 ==> skipReload == later)
    ensures Steps(start, end, skipReload, switched) == Steps(start, end, later, later')
  {
  }

  lemma {:induction false} StepsNext(start: nat, index: nat, skipReload: bool, switched: set<Port>)
    requires start <= index < 5
    ensures Steps(start, index + 1, skipReload, switched)
         == Steps(start, index, skipReload, switched) + Steps(index, index + 1, skipReload, switched)
  {
    assert Steps(index, index, skipReload, switched) == [];
  }

  /** One turn of the loop over the phases: run this one, or pass over a reload already in effect. */
  method Turn(w: World, job: Job, start: nat, index: nat, skipped: bool, backend: Backend,
              ghost switched: set<Port>, ghost done: seq<Event>)
    returns (ok: bool, skipReload: bool, ghost switched': set<Port>)
    requires start <= index < 5 && Between(w, job, index, skipped) && (skipped ==> 2 <= index && start <= 1)
    requires Marks(w.log) == done + Steps(start, index, skipped, switched)
    modifies w, job
    ensures w.Valid() && w.origin == old(w.origin) && (!w.faults ==> ok)
    ensures if ok then Between(w, job, index + 1, skipReload) else w.exec.Running?
    ensures skipReload ==> 2 <= index + 1 && start <= 1
    ensures ok ==> Marks(w.log) == done + Steps(start, index + 1, skipReload, switched')
  {
    var phase := Phases(true)[index];
    ok, skipReload, switched' := true, skipped, switched;
    if !(skipped && (phase == DoWait(BeforeReload) || phase == DoReload)) {
      var found;
      ghost var now;
      ok, found, now := RunPhase(w, job, index, backend);
      skipReload := skipped || found;
      switched' := if phase == DoReload then now else switched;
      if index <= 2 {
        StepsBefore(start, index, skipped, switched, skipReload, switched');
      }
      SameStep(index, skipReload, found, now, switched');
    }
    StepsNext(start, index, skipReload, switched');
    Associative(done, Steps(start, index, skipReload, switched'), Steps(index, index + 1, skipReload, switched'));
  }

  lemma SameStep(index: nat, skipReload: bool, found: bool, now: set<Port>, switched: set<Port>)
    requires index < 5 && (index == 1 || index == 2 ==> skipReload == found) && (index == 2 ==> now == switched)
    ensures Steps(index, index + 1, skipReload, switched) == Steps(index, index + 1, found, now)
  {
    assert Steps(index, index, skipReload, switched) == Steps(index, index, found, now) == [];
  }

  /** The loop over the phases: it ends at the first that fails. */
  method RunPhases(w: World, job: Job, start: nat, backend: Backend)
    returns (code: nat, skipReload: bool, ghost switched: set<Port>)
    requires start < 5 && job.reload && StandsAt(w, job, PcBefore(start, false))
    modifies w, job
    ensures w.Valid() && w.origin == old(w.origin)
    ensures if code == 0 then w.exec == Idle && w.disk == None else w.exec.Running? && w.faults
    ensures code == 0 ==> Marks(w.log) == old(Marks(w.log)) + Steps(start, 5, skipReload, switched)
    ensures skipReload ==> start <= 1
  {
    code, skipReload, switched := 0, false, {};
    ghost var done := Marks(w.log);
    var k := start;
    while k < |Phases(job.reload)| && code == 0
      invariant start <= k <= 5 && w.Valid() && w.origin == old(w.origin)
      invariant skipReload ==> 2 <= k && start <= 1
      invariant code == 0 ==> Between(w, job, k, skipReload) && Marks(w.log) == done + Steps(start, k, skipReload, switched)
      invariant code != 0 ==> w.exec.Running? && w.faults
      decreases 5 - k
    {
      var ok;
      ok, skipReload, switched := Turn(w, job, start, k, skipReload, backend, switched, done);
      if !ok {
        code := 1;
      }
      k := k + 1;
    }
  }

  /**
   * Runs the phases from the job's own one on. Whatever fails, the world has only gone through
   * steps of the machine; exit code 0 means that the whole suffix of phases was gone through, the
   * reload command run once or the key seen in service instead, and that the job is gone. In a
   * world without faults the code is 0.
   */
  method ExecuteRollover(w: World, record: JobRecord, backend: Backend)
    returns (code: nat, skipReload: bool, ghost switched: set<Port>)
    requires w.Valid() && w.exec == Running(record, StartPc(record.phase))
    modifies w
    ensures w.Valid() && w.origin == old(w.origin) && w.exec == Idle
    ensures code == 0 ==> w.disk == None
    ensures code == 0 ==>
      Marks(w.log) == old(Marks(w.log)) + Steps(record.phase.StartIndex(), 5, skipReload, switched)
    ensures skipReload ==> record.phase == AtPublish || record.phase == AtWaitBeforeReload
    ensures !w.faults ==> code == 0
  {
    var job := new Job.FromRecord(record);
    code, skipReload, switched := RunPhases(w, job, job.phase.StartIndex(), backend);
    if code != 0 {
      w.Abort();
    }
  }

  // ---- the commands ----

  /** The world is between commands. */
  ghost predicate Ready(w: World)
    reads w
  {
    Sound(w.View()) && w.exec == Idle
  }

  /** Every moment of the last command was safe, and the next one may start from here. */
  ghost predicate WasSafe(w: World)
    reads w
  {
    && Reaches(w.origin, w.log, w.View()) && AlwaysSafe(w.origin, w.log)
    && WellFormed(w.View()) && Safe(w.View()) && Pinned(w.View())
  }

  lemma ExecutionWasSafe(w: World)
    requires w.Valid() && Sound(w.origin) && Safe(w.origin) && Pinned(w.origin)
    ensures WasSafe(w)
  {
    AlwaysSafeFrom(w.origin, w.log);
    InvariantRun(w.origin, w.log);
  }

  /** An execution that a command has just started from a safe world is safe to its end. */
  lemma StartedSafely(w: World, before: State, e: Event)
    requires w.Valid() && Sound(before) && Safe(before) && Pinned(before)
    requires before.exec.Idle? && Enabled(e, before) && !e.Replay? && w.origin == Apply(e, before)
    ensures WasSafe(w)
  {
    SoundStep(e, before);
    SafeStep(e, before);
    PinnedStep(e, before);
    ExecutionWasSafe(w);
  }

  /** Takes up the saved job for this certificate or a new one, and saves it. */
  method TakeUp(w: World, ttl: Ttl) returns (ok: bool, job: JobRecord)
    requires Ready(w) && PortsKnown(w.View(), w.ports) && w.window <= WaitSeconds(ttl)
    modifies w
    ensures !w.faults ==> ok
    ensures !ok ==> w.View() == old(w.View())
    ensures ok ==> w.Valid() && w.exec == Running(job, StartPc(job.phase))
    ensures ok ==> w.origin == Apply(StartRollover(ttl), old(w.View()))
  {
    job := NewJob(w.ports, ttl, w.file);
    if w.disk.Some? && EqIgnoreCase(w.file, w.disk.value.certificate) {
      job := w.disk.value;
    }
    ok := w.Attempt();
    if ok {
      SoundStep(StartRollover(ttl), w.View());
      w.disk := Some(job);
      w.saved := w.saved + {job};
      w.exec := Running(job, StartPc(job.phase));
      w.origin, w.log := w.View(), [];
    }
  }

  /**
   * `rollover`: take up the saved job for this certificate or start a new one, and run it. Once it
   * has started, every moment of it is safe, whether it completes or fails.
   */
  method RolloverCommand(w: World, ttl: Ttl, backend: Backend) returns (code: nat, ghost started: bool)
    requires Ready(w) && PortsKnown(w.View(), w.ports) && w.window <= WaitSeconds(ttl)
    modifies w
    ensures Ready(w) && (!w.faults ==> code == 0) && (code == 0 ==> started && w.disk == None)
    ensures !started ==> code == 1 && w.View() == old(w.View())
    ensures started && old(Safe(w.View()) && Pinned(w.View())) ==> WasSafe(w)
  {
    ghost var before, e := w.View(), StartRollover(ttl);
    var ok, job := TakeUp(w, ttl);
    started := ok;
    if !ok {
      return 1, false;
    }
    var skipped;
    ghost var switched;
    code, skipped, switched := ExecuteRollover(w, job, backend);
    if Safe(before) && Pinned(before) {
      StartedSafely(w, before, e);
    }
  }

  /**
   * `rollover --resume` for a copy of the job loaded earlier. With the copy that is still on disk
   * it is as safe as a new start; the certificate check alone decides whether any other runs.
   */
  method ResumeCommand(w: World, copy: JobRecord, backend: Backend) returns (code: nat)
    requires Ready(w) && copy in w.saved
    modifies w
    ensures Ready(w) && (code == 0 ==> w.disk == None)
    ensures !old(EqIgnoreCase(w.file, copy.certificate)) ==> code == 1 && w.View() == old(w.View())
    ensures !w.faults && old(EqIgnoreCase(w.file, copy.certificate)) ==> code == 0
    ensures old(EqIgnoreCase(w.file, copy.certificate) && w.disk == Some(copy) && Safe(w.View()) && Pinned(w.View())) ==>
      WasSafe(w)
  {
    if !EqIgnoreCase(w.file, copy.certificate) {
      return 1;
    }
    ghost var before, e := w.View(), if w.disk == Some(copy) then Resume else Replay(copy);
    SoundStep(e, before);
    w.exec := Running(copy, StartPc(copy.phase));
    w.origin, w.log := w.View(), [];
    var skipped;
    ghost var switched;
    code, skipped, switched := ExecuteRollover(w, copy, backend);
    if Safe(before) && Pinned(before) && e == Resume {
      StartedSafely(w, before, e);
    }
  }
}
