/**
 * However often a job crashes and is resumed, once it is removed the RRsets are those of an
 * uninterrupted run: everything published, then pruned to the key in service.
 */
module CrashEquivalence {
  import opened Text
  import opened Publish
  import opened Rollover
  import opened Machine
  import opened Safety
  import opened Timing

  /** The RRset an uninterrupted publish makes of the one the job found. */
  ghost function Target(origin: State, p: Port): Rrset
    requires WellFormed(origin) && p in origin.zone
  {
    AfterPublish(Current(origin, p), origin.file, Mode.Rollover)
  }

  ghost predicate SamePorts(origin: State, s: State) {
    WellFormed(origin) && WellFormed(s) && s.live.Keys == origin.live.Keys && s.file == origin.file
  }

  /** Ports done in the publish loop under way. */
  ghost predicate DonePublishing(s: State, p: Port) {
    s.exec.Running? &&
    match s.exec.at
    case Publishing(n) => n <= |s.exec.job.ports| && p in s.exec.job.ports[..n]
    case Saving => true
    case _ => false
  }

  ghost predicate DonePruning(s: State, p: Port) {
    s.exec.Running? && s.exec.at.Pruning? && s.exec.at.next <= |s.exec.job.ports| && p in s.exec.job.ports[..s.exec.at.next]
  }

  /** What one port's RRset looks like at each phase of the job on disk. */
  ghost predicate RrsetAt(phase: JobPhase, now: Rrset, live: string, found: Rrset, target: Rrset, published: bool, pruned: bool) {
    match phase
    case AtPublish => now == target || (now == found && !published)
    case AtPrune => AfterPrune(now, live) == AfterPrune(target, live) && (pruned ==> StaleDane(now, live) == [])
    case _ => now == target
  }

  ghost predicate PortStage(origin: State, s: State, p: Port)
    requires SamePorts(origin, s) && p in s.live && s.disk.Some?
  {
    RrsetAt(s.disk.value.phase, Current(s, p), s.live[p], Current(origin, p), Target(origin, p),
            DonePublishing(s, p), DonePruning(s, p))
  }

  ghost predicate Stage(origin: State, s: State) {
    && SamePorts(origin, s) && s.disk.Some?
    && (forall p | p in s.disk.value.ports :: p in s.live && PortStage(origin, s, p))
    && (forall p | p in s.live && p !in s.disk.value.ports :: s.zone[p] == origin.zone[p])
  }

  /** Where an execution of the job on disk stands. */
  ghost predicate Placed(s: State) {
    && WellFormed(s) && s.disk.Some?
    && (s.exec.Running? ==>
          var disk, job := s.disk.value, s.exec.job;
          && job.ports == disk.ports
          && match s.exec.at
             case Publishing(n) => n <= |job.ports| && disk.phase == AtPublish
             case Checking => disk.phase == AtWaitBeforeReload
             case Reloading(_) => disk.phase == AtReload
             case PruneWait => disk.phase == AtWaitBeforePrune
             case Sleeping(_, _, _) => disk.phase == AtWaitBeforeReload || disk.phase == AtWaitBeforePrune
             case Saving => disk.phase != AtPrune && job.phase != AtPublish
             case Pruning(n) => n <= |job.ports| && disk.phase == AtPrune)
  }

  lemma SoundIsPlaced(s: State)
    requires Sound(s) && InStep(s)
    ensures Placed(s)
  {
  }

  lemma PublishRrset(now: Rrset, found: Rrset, hash: string)
    requires now == found || now == AfterPublish(found, hash, Mode.Rollover)
    ensures AfterPublish(now, hash, Mode.Rollover) == AfterPublish(found, hash, Mode.Rollover)
  {
    PublishThenNothingToDo(found, hash, Mode.Rollover, Mode.Rollover, false);
  }

  lemma DoneAfterPublish(s: State, p: Port)
    requires Placed(s) && Enabled(PublishPort, s)
    ensures Apply(PublishPort, s).disk == s.disk && Apply(PublishPort, s).live == s.live
    ensures DonePublishing(Apply(PublishPort, s), p) ==> DonePublishing(s, p) || p == ThisPort(s)
  {
    var n, ports := s.exec.at.next, s.exec.job.ports;
    assert ports[..n + 1] == ports[..n] + [ThisPort(s)];
  }

  lemma StagePublish(origin: State, s: State, p: Port)
    requires Placed(s) && SamePorts(origin, s) && Enabled(PublishPort, s) && p in s.live
    requires PortStage(origin, s, p)
    ensures SamePorts(origin, Apply(PublishPort, s)) && PortStage(origin, Apply(PublishPort, s), p)
  {
    AfterPublishPort(s, p);
    DoneAfterPublish(s, p);
    PublishRrset(Current(s, p), Current(origin, p), s.file);
  }

  lemma PruneRrset(now: Rrset, live: string, target: Rrset, e: Event)
    requires AfterPrune(now, live) == AfterPrune(target, live) && StaleDane(now, live) != []
    requires e.WritePruned? || (e.DeleteStaleRecord? && e.record.IsStale(live))
    ensures AfterPrune(Pruned(now, live, e), live) == AfterPrune(target, live)
  {
    PruneStable(now, live);
    if e.DeleteStaleRecord? {
      DeleteStale(now, live, e.record);
    }
  }

  /** Both ways of pruning: the whole RRset, or one record of it. */
  ghost function Pruned(now: Rrset, live: string, e: Event): Rrset
    requires e.WritePruned? || e.DeleteStaleRecord?
  {
    if e.WritePruned? then AfterPrune(now, live) else Without(now, e.record)
  }

  lemma PruneTarget(s: State, e: Event)
    requires WellFormed(s) && Enabled(e, s) && (e.WritePruned? || e.DeleteStaleRecord?)
    ensures var q := ThisPort(s);
      && Apply(e, s) == Write(s, q, Pruned(Current(s, q), s.live[q], e))
      && StaleDane(Current(s, q), s.live[q]) != []
  {
    NothingStale(Current(s, ThisPort(s)), s.live[ThisPort(s)]);
  }

  lemma StagePrune(origin: State, s: State, e: Event, p: Port)
    requires Placed(s) && SamePorts(origin, s) && Enabled(e, s) && (e.WritePruned? || e.DeleteStaleRecord?)
    requires p in s.live && PortStage(origin, s, p) && PortStage(origin, s, ThisPort(s))
    ensures SamePorts(origin, Apply(e, s)) && PortStage(origin, Apply(e, s), p)
  {
    var q := ThisPort(s);
    PruneTarget(s, e);
    PruneRrset(Current(s, q), s.live[q], Target(origin, q), e);
    CurrentAfterWrite(s, q, Pruned(Current(s, q), s.live[q], e), p);
  }

  lemma StagePortPruned(origin: State, s: State, p: Port)
    requires Placed(s) && SamePorts(origin, s) && Enabled(PortPruned, s) && p in s.disk.value.ports && p in s.live
    requires PortStage(origin, s, p)
    ensures SamePorts(origin, Apply(PortPruned, s)) && PortStage(origin, Apply(PortPruned, s), p)
  {
    var n, ports := s.exec.at.next, s.exec.job.ports;
    assert ports[..n + 1] == ports[..n] + [ThisPort(s)];
    assert DonePruning(Apply(PortPruned, s), p) ==> DonePruning(s, p) || p == ThisPort(s);
  }

  ghost predicate IsPortEvent(e: Event) {
    e.PublishPort? || e.WritePruned? || e.DeleteStaleRecord? || e.PortPruned?
  }

  /** Steps that leave the RRsets alone, save the job or take up another phase. */
  lemma QuietStep(s: State, e: Event, p: Port)
    requires Placed(s) && Enabled(e, s) && OfOneJob(e, s)
    requires !IsPortEvent(e) && !e.RemoveJob? && !e.PortsPublished? && !e.Save?
    ensures var t := Apply(e, s);
      && t.zone == s.zone && t.disk == s.disk && (t.live == s.live || s.disk.value.phase == AtReload)
      && (DonePublishing(t, p) && s.disk.value.phase == AtPublish ==> DonePublishing(s, p))
      && (DonePruning(t, p) ==> DonePruning(s, p))
  {
  }

  /** A save only happens with every port's RRset where the saved phase wants it. */
  lemma SaveStep(s: State, p: Port)
    requires Placed(s) && Enabled(Save, s)
    ensures var t := Apply(Save, s);
      && t.zone == s.zone && t.live == s.live && t.disk.Some? && t.disk.value.phase != AtPublish
      && DonePublishing(s, p) && !DonePruning(t, p)
      && s.disk.value.phase != AtPrune
  {
  }

  lemma StageElsewhere(origin: State, s: State, e: Event, p: Port)
    requires Placed(s) && SamePorts(origin, s) && Enabled(e, s) && OfOneJob(e, s) && p in s.disk.value.ports && p in s.live
    requires PortStage(origin, s, p)
    requires !IsPortEvent(e) && !e.RemoveJob?
    ensures SamePorts(origin, Apply(e, s)) && Apply(e, s).disk.Some? && PortStage(origin, Apply(e, s), p)
  {
    ApplyWellFormed(e, s);
    if e.PortsPublished? {
      assert s.exec.job.ports[..|s.exec.job.ports|] == s.exec.job.ports;
    } else if e.Save? {
      SaveStep(s, p);
    } else {
      QuietStep(s, e, p);
    }
  }

  /** Ports outside the job are never written. */
  lemma OthersUntouched(s: State, e: Event, p: Port)
    requires Placed(s) && Enabled(e, s) && OfOneJob(e, s)
    requires p in s.live && p !in s.disk.value.ports
    ensures p in Apply(e, s).zone && Apply(e, s).zone[p] == s.zone[p]
  {
  }

  lemma PortStep(origin: State, s: State, e: Event, p: Port)
    requires Placed(s) && SamePorts(origin, s) && Enabled(e, s) && OfOneJob(e, s) && !e.RemoveJob?
    requires p in s.disk.value.ports && p in s.live && PortStage(origin, s, p)
    requires e.WritePruned? || e.DeleteStaleRecord? ==> PortStage(origin, s, ThisPort(s))
    ensures SamePorts(origin, Apply(e, s)) && Apply(e, s).disk.Some? && PortStage(origin, Apply(e, s), p)
  {
    match e
    case PublishPort => StagePublish(origin, s, p);
    case WritePruned => StagePrune(origin, s, e, p);
    case DeleteStaleRecord(_) => StagePrune(origin, s, e, p);
    case PortPruned => StagePortPruned(origin, s, p);
    case _ => StageElsewhere(origin, s, e, p);
  }

  lemma StageStep(origin: State, s: State, e: Event)
    requires Placed(s) && Stage(origin, s) && Enabled(e, s) && OfOneJob(e, s) && !e.RemoveJob?
    ensures Stage(origin, Apply(e, s))
  {
    StaysInStep(origin, s, e);
    forall p | p in s.disk.value.ports ensures PortStage(origin, Apply(e, s), p) {
      PortStep(origin, s, e, p);
    }
    forall p | p in s.live && p !in s.disk.value.ports ensures Apply(e, s).zone[p] == s.zone[p] {
      OthersUntouched(s, e, p);
    }
  }

  lemma StaysInStep(origin: State, s: State, e: Event)
    requires Placed(s) && SamePorts(origin, s) && Enabled(e, s) && OfOneJob(e, s) && !e.RemoveJob?
    ensures SamePorts(origin, Apply(e, s)) && Apply(e, s).disk.Some?
    ensures Apply(e, s).disk.value.ports == s.disk.value.ports
  {
    ApplyWellFormed(e, s);
  }

  ghost predicate Outcome(origin: State, ports: seq<Port>, s: State) {
    && SamePorts(origin, s) && s.disk == None && s.exec == Idle
    && (forall p | p in ports :: p in s.live && Current(s, p) == AfterPrune(Target(origin, p), s.live[p]))
    && (forall p | p in s.live && p !in ports :: s.zone[p] == origin.zone[p])
  }

  lemma StageRemove(origin: State, s: State)
    requires Placed(s) && Stage(origin, s) && Enabled(RemoveJob, s)
    ensures Outcome(origin, s.disk.value.ports, Apply(RemoveJob, s))
  {
    var ports, t := s.exec.job.ports, Apply(RemoveJob, s);
    ApplyWellFormed(RemoveJob, s);
    assert ports[..|ports|] == ports;
    assert t.zone == s.zone && t.live == s.live && s.disk.value.phase == AtPrune;
    forall p | p in ports ensures Current(t, p) == AfterPrune(Target(origin, p), t.live[p]) {
      assert PortStage(origin, s, p);
      NothingStale(Current(s, p), s.live[p]);
    }
  }

  /** After the job is gone only time passes. */
  lemma {:induction false} OutcomeStays(origin: State, ports: seq<Port>, s: State, es: seq<Event>)
    requires Outcome(origin, ports, s) && IsRun(s, es) && IsChain(s, es)
    ensures Outcome(origin, ports, After(s, es))
    decreases es
  {
    if es != [] {
      ApplyWellFormed(es[0], s);
      assert es[0].Tick? || es[0].Forget?;
      OutcomeStays(origin, ports, Apply(es[0], s), es[1..]);
    }
  }

  lemma {:induction false} StageRun(origin: State, s: State, es: seq<Event>)
    requires Sound(s) && InStep(s) && Stage(origin, s) && IsRun(s, es) && IsChain(s, es)
    ensures After(s, es).disk == None ==> Outcome(origin, s.disk.value.ports, After(s, es))
    decreases es
  {
    if es != [] {
      var e := es[0];
      SoundStep(e, s);
      SoundIsPlaced(s);
      if e == RemoveJob {
        StageRemove(origin, s);
        OutcomeStays(origin, s.disk.value.ports, Apply(e, s), es[1..]);
      } else {
        InStepStep(e, s);
        StageStep(origin, s, e);
        StageRun(origin, Apply(e, s), es[1..]);
      }
    }
  }

  /**
   * A new job is on disk. Crash and resume it at any points of its publish, waits, reloads and
   * prune, by records or by RRset: whenever it is finally removed, each of its ports holds
   * prune(publish(what was there), key in service), and no other port has changed.
   */
  lemma CrashesLeaveNoTrace(s: State, es: seq<Event>)
    requires Sound(s) && s.exec.Idle? && s.disk.Some? && s.disk.value.phase == AtPublish
    requires MatchesFile(s, s.disk.value) && IsRun(s, es) && IsChain(s, es) && After(s, es).disk == None
    ensures Outcome(s, s.disk.value.ports, After(s, es))
  {
    StageRun(s, s, es);
  }
}
