/**
 * A rollover as a state machine: the program's steps (execute_rollover and the commands that start
 * it, src/main.rs), the crashes that can fall between any two of them, and the world around it.
 */
module Machine {
  import opened Text
  import opened Publish
  import opened Rollover

  /** An RRset that was authoritative from second `since` until the next version's `since`. */
  datatype Version = Version(since: nat, rrset: Rrset)
  type History = seq<Version>

  /**
   * Where an execution stands. `Reloading`: whether the reload command has been run. `Saving`: the
   * job is marked in memory and not yet on disk.
   */
  datatype Pc =
    | Publishing(next: nat)
    | Checking
    | Reloading(ran: bool)
    | PruneWait
    | Sleeping(reason: WaitReason, entered: nat, until: nat)
    | Saving
    | Pruning(next: nat)

  datatype Exec = Idle | Running(job: JobRecord, at: Pc)

  /**
   * The world of one job id, which names its ports. `window`: how many seconds back a resolver may
   * have fetched a copy that a client still uses. `saved`: the copies of the job that were saved and
   * that some process may still run.
   */
  datatype State = State(
    ports: seq<Port>, now: nat, window: nat, file: string, live: map<Port, string>, zone: map<Port, History>,
    disk: Option<JobRecord>, exec: Exec, saved: set<JobRecord>)

  datatype Event =
    // the world
    | Tick(seconds: nat)
    | FileChange(hash: string)
    | Crash
    | Forget(job: JobRecord)
    // commands
    | ScheduleJob(ttl: Ttl)
    | StartRollover(ttl: Ttl)
    | Resume
    | Replay(job: JobRecord)
    // the phases of an execution
    | PublishPort
    | PortsPublished
    | Save
    | SeenLive
    | StartReloadSleep
    | ReloadSwitch(switched: set<Port>)
    | ReloadReturned
    | StartPruneSleep
    | Wake
    | DeleteStaleRecord(record: DaneTlsa)
    | WritePruned
    | PortPruned
    | RemoveJob

  function StartPc(phase: JobPhase): Pc {
    match phase
    case AtPublish => Publishing(0)
    case AtWaitBeforeReload => Checking
    case AtReload => Reloading(false)
    case AtWaitBeforePrune => PruneWait
    case AtPrune => Pruning(0)
  }

  predicate WellFormedHistory(h: History, now: nat) {
    |h| > 0 && forall i | 0 <= i < |h| :: h[i].since <= now
  }

  predicate WellFormed(s: State) {
    && s.zone.Keys == s.live.Keys
    && forall p | p in s.zone :: WellFormedHistory(s.zone[p], s.now)
  }

  /** The RRset the authoritative server answers with now. */
  function Current(s: State, p: Port): Rrset
    requires p in s.zone && |s.zone[p]| > 0
  {
    s.zone[p][|s.zone[p]| - 1].rrset
  }

  /** The server takes a new RRset for the port. */
  function Write(s: State, p: Port, rrset: Rrset): State
    requires p in s.zone
  {
    s.(zone := s.zone[p := s.zone[p] + [Version(s.now, rrset)]])
  }

  predicate MatchesFile(s: State, job: JobRecord) {
    EqIgnoreCase(s.file, job.certificate)
  }

  predicate PortsKnown(s: State, ports: seq<Port>) {
    forall p | p in ports :: p in s.live
  }

  predicate IsAt(s: State, pc: Pc) {
    s.exec.Running? && s.exec.at == pc
  }

  /** The job a `rollover` command runs: a saved one for the same certificate, else a new one. */
  function JobToRun(s: State, ttl: Ttl): JobRecord {
    if s.disk.Some? && MatchesFile(s, s.disk.value) then s.disk.value else NewJob(s.ports, ttl, s.file)
  }

  /** Every port presents the file's key (`live_matches_file`). */
  predicate AllLive(s: State, ports: seq<Port>) {
    ports != [] && forall p | p in ports :: p in s.live && EqIgnoreCase(s.live[p], s.file)
  }

  predicate Enabled(e: Event, s: State)
    requires WellFormed(s)
  {
    match e
    case Tick(_) => true
    case FileChange(_) => s.exec.Idle?
    case Crash => s.exec.Running?
    case Forget(job) => job in s.saved && s.disk != Some(job)
    case ScheduleJob(ttl) => PortsKnown(s, s.ports) && s.window <= WaitSeconds(ttl)
    case StartRollover(ttl) => s.exec.Idle? && PortsKnown(s, s.ports) && s.window <= WaitSeconds(ttl)
    case Resume => s.exec.Idle? && s.disk.Some? && MatchesFile(s, s.disk.value)
    case Replay(job) => s.exec.Idle? && job in s.saved && MatchesFile(s, job)
    case PublishPort => AtPort(s) && s.exec.at.Publishing?
    case PortsPublished => s.exec.Running? && s.exec.at == Publishing(|s.exec.job.ports|)
    case Save => IsAt(s, Saving)
    case SeenLive => IsAt(s, Checking) && AllLive(s, s.exec.job.ports)
    case StartReloadSleep => IsAt(s, Checking)
    case ReloadSwitch(switched) => s.exec.Running? && s.exec.at.Reloading? && forall p | p in switched :: p in s.exec.job.ports
    case ReloadReturned => IsAt(s, Reloading(true))
    case StartPruneSleep => IsAt(s, PruneWait)
    case Wake => s.exec.Running? && s.exec.at.Sleeping? && s.exec.at.until <= s.now
    case DeleteStaleRecord(record) =>
      AtPort(s) && s.exec.at.Pruning? && record in Current(s, ThisPort(s)) && record.IsStale(s.live[ThisPort(s)])
    case WritePruned =>
      AtPort(s) && s.exec.at.Pruning? && StaleDane(Current(s, ThisPort(s)), s.live[ThisPort(s)]) != []
    case PortPruned =>
      AtPort(s) && s.exec.at.Pruning? && StaleDane(Current(s, ThisPort(s)), s.live[ThisPort(s)]) == []
    case RemoveJob => s.exec.Running? && s.exec.at == Pruning(|s.exec.job.ports|)
  }

  /** The execution is working on one of its ports. */
  predicate AtPort(s: State) {
    && s.exec.Running?
    && (s.exec.at.Publishing? || s.exec.at.Pruning?)
    && s.exec.at.next < |s.exec.job.ports|
    && s.exec.job.ports[s.exec.at.next] in s.live
  }

  function ThisPort(s: State): Port
    requires AtPort(s)
  {
    s.exec.job.ports[s.exec.at.next]
  }

  /** The keys in service once these ports have switched. */
  function Presented(live: map<Port, string>, switched: set<Port>, file: string): (r: map<Port, string>)
    ensures r.Keys == live.Keys && forall p | p in live :: r[p] == if p in switched then file else live[p]
  {
    map p | p in live :: if p in switched then file else live[p]
  }

  function Persisted(s: State, job: JobRecord): State {
    s.(disk := Some(job), saved := s.saved + {job})
  }

  function Goto(s: State, job: JobRecord, pc: Pc): State {
    s.(exec := Running(job, pc))
  }

  function Slept(s: State, reason: WaitReason, deadline: Option<nat>): State
    requires s.exec.Running?
  {
    Goto(s, s.exec.job, Sleeping(reason, s.now, s.now + Remaining(deadline, s.now)))
  }

  function Apply(e: Event, s: State): State
    requires WellFormed(s) && Enabled(e, s)
  {
    match e
    case Tick(d) => s.(now := s.now + d)
    case FileChange(h) => s.(file := h)
    case Crash => s.(exec := Idle)
    case Forget(job) => s.(saved := s.saved - {job})
    case ScheduleJob(ttl) => Persisted(s, NewJob(s.ports, ttl, s.file))
    case StartRollover(ttl) =>
      var job := JobToRun(s, ttl);
      Goto(Persisted(s, job), job, StartPc(job.phase))
    case Resume => Goto(s, s.disk.value, StartPc(s.disk.value.phase))
    case Replay(job) => Goto(s, job, StartPc(job.phase))
    case PublishPort =>
      var ours := Current(s, ThisPort(s));
      var t := if ActionFor(ours, s.file, Mode.Rollover, false) == AlreadyPublished then s
               else Write(s, ThisPort(s), AfterPublish(ours, s.file, Mode.Rollover));
      Goto(t, s.exec.job, Publishing(s.exec.at.next + 1))
    case PortsPublished => Goto(s, s.exec.job.Published(s.now), Saving)
    case Save => Goto(Persisted(s, s.exec.job), s.exec.job, StartPc(s.exec.job.phase))
    case SeenLive => Goto(s, s.exec.job.Reloaded(s.now), Saving)
    case StartReloadSleep => Slept(s, BeforeReload, s.exec.job.reloadAfter)
    case ReloadSwitch(switched) =>
      Goto(s.(live := Presented(s.live, switched, s.file)), s.exec.job, Reloading(true))
    case ReloadReturned => Goto(s, s.exec.job.Reloaded(s.now), Saving)
    case StartPruneSleep => Slept(s, BeforePrune, s.exec.job.pruneAfter)
    case Wake =>
      Goto(s, if s.exec.at.reason == BeforeReload then s.exec.job.WaitingReload() else s.exec.job.ReadyToPrune(), Saving)
    case DeleteStaleRecord(record) =>
      Write(s, ThisPort(s), Without(Current(s, ThisPort(s)), record))
    case WritePruned =>
      Write(s, ThisPort(s), AfterPrune(Current(s, ThisPort(s)), s.live[ThisPort(s)]))
    case PortPruned => Goto(s, s.exec.job, Pruning(s.exec.at.next + 1))
    case RemoveJob => s.(disk := None, exec := Idle)
  }

  lemma WriteWellFormed(s: State, p: Port, rrset: Rrset)
    requires WellFormed(s) && p in s.zone
    ensures WellFormed(Write(s, p, rrset))
  {
    assert WellFormedHistory(s.zone[p] + [Version(s.now, rrset)], s.now);
  }

  /** Nothing holds the world back: time passes, the program dies, files change and jobs are scheduled at any moment that allows it. */
  lemma WorldIsFree(s: State, seconds: nat, hash: string, ttl: Ttl, switched: set<Port>)
    requires WellFormed(s)
    ensures Enabled(Tick(seconds), s) && (s.exec.Running? ==> Enabled(Crash, s)) && (s.exec.Idle? ==> Enabled(FileChange(hash), s))
    ensures PortsKnown(s, s.ports) && s.window <= 2 * ttl ==> Enabled(ScheduleJob(ttl), s)
    ensures s.exec.Running? && s.exec.at.Reloading? && (forall p | p in switched :: p in s.exec.job.ports) ==>
      Enabled(ReloadSwitch(switched), s)
    ensures forall job | job in s.saved && s.disk != Some(job) :: Enabled(Forget(job), s)
  {
  }

  /** A schedule leaves a job for these ports and the certificate of now, still to be published, and touches nothing else. */
  lemma Scheduled(s: State, ttl: Ttl)
    requires WellFormed(s) && Enabled(ScheduleJob(ttl), s)
    ensures var t := Apply(ScheduleJob(ttl), s);
      && t.disk.Some? && t == s.(disk := t.disk, saved := s.saved + {t.disk.value})
      && var job := t.disk.value; job.phase == AtPublish && job.ports == s.ports && job.ttl == ttl && job.certificate == s.file
  {
  }

  /** A copy that no process holds any more can be run no more, and every other one still can. */
  lemma Forgotten(s: State, job: JobRecord, other: JobRecord)
    requires WellFormed(s) && Enabled(Forget(job), s)
    ensures var t := Apply(Forget(job), s);
      && t == s.(saved := t.saved)
      && (Enabled(Replay(other), t) <==> Enabled(Replay(other), s) && other != job)
  {
  }

  lemma ApplyWellFormed(e: Event, s: State)
    requires WellFormed(s) && Enabled(e, s)
    ensures WellFormed(Apply(e, s))
  {
    match e
    case PublishPort =>
      WriteWellFormed(s, ThisPort(s), AfterPublish(Current(s, ThisPort(s)), s.file, Mode.Rollover));
    case DeleteStaleRecord(record) =>
      WriteWellFormed(s, ThisPort(s), Without(Current(s, ThisPort(s)), record));
    case WritePruned =>
      WriteWellFormed(s, ThisPort(s), AfterPrune(Current(s, ThisPort(s)), s.live[ThisPort(s)]));
    case Tick(_) =>
      assert Apply(e, s).zone == s.zone;
    case ReloadSwitch(_) =>
      assert Apply(e, s).live.Keys == s.live.Keys;
    case _ =>
      assert Apply(e, s).zone == s.zone && Apply(e, s).live == s.live && Apply(e, s).now == s.now;
  }

  lemma CurrentAfterWrite(s: State, p: Port, rrset: Rrset, q: Port)
    requires WellFormed(s) && p in s.zone && q in s.zone
    ensures WellFormed(Write(s, p, rrset))
    ensures Current(Write(s, p, rrset), q) == if q == p then rrset else Current(s, q)
  {
    WriteWellFormed(s, p, rrset);
  }

  /** Publishing one port leaves its RRset as `AfterPublish` says and the others alone. */
  lemma AfterPublishPort(s: State, q: Port)
    requires WellFormed(s) && Enabled(PublishPort, s) && q in s.live
    ensures WellFormed(Apply(PublishPort, s))
    ensures Current(Apply(PublishPort, s), q)
         == if q == ThisPort(s) then AfterPublish(Current(s, q), s.file, Mode.Rollover) else Current(s, q)
  {
    ApplyWellFormed(PublishPort, s);
    CurrentAfterWrite(s, ThisPort(s), AfterPublish(Current(s, ThisPort(s)), s.file, Mode.Rollover), q);
  }

  // ---- runs ----

  /** Every event of the list can happen, one after the other. */
  ghost predicate IsRun(s: State, es: seq<Event>)
    decreases es
  {
    && WellFormed(s)
    && (es != [] ==> Enabled(es[0], s) && IsRun(Apply(es[0], s), es[1..]))
  }

  ghost function After(s: State, es: seq<Event>): (t: State)
    requires IsRun(s, es)
    ensures WellFormed(t)
    decreases es
  {
    if es == [] then s else After(Apply(es[0], s), es[1..])
  }

  lemma {:induction false} RunSnoc(s: State, es: seq<Event>, e: Event)
    requires IsRun(s, es) && Enabled(e, After(s, es))
    ensures IsRun(s, es + [e]) && After(s, es + [e]) == Apply(e, After(s, es))
    decreases es
  {
    if es == [] {
      ApplyWellFormed(e, s);
      assert ([e])[1..] == [];
    } else {
      RunSnoc(Apply(es[0], s), es[1..], e);
      assert (es + [e])[1..] == es[1..] + [e];
    }
  }

  ghost predicate Reaches(s: State, es: seq<Event>, t: State) {
    IsRun(s, es) && After(s, es) == t
  }

  lemma ReachesNext(s: State, es: seq<Event>, t: State, e: Event)
    requires Reaches(s, es, t) && Enabled(e, t)
    ensures Reaches(s, es + [e], Apply(e, t))
  {
    RunSnoc(s, es, e);
  }
}
