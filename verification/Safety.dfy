/**
 * No client with a still-allowed copy of an RRset meets a key that copy does not pin
 * (section 8.1 of RFC 7671), in every run that resumes from the job on disk.
 */
module Safety {
  import opened Text
  import opened Publish
  import opened Rollover
  import opened Machine

  /** Version `k` was authoritative at some second of the `window` before `now`, or is now. */
  ghost predicate InView(h: History, k: int, now: nat, window: nat) {
    0 <= k < |h| && (k == |h| - 1 || now < h[k + 1].since + window)
  }

  ghost predicate PinnedInView(h: History, now: nat, window: nat, hash: string) {
    forall k | InView(h, k, now, window) :: Pins(h[k].rrset, hash)
  }

  /** Every copy a client may hold pins the key it will meet. */
  ghost predicate Safe(s: State)
    requires WellFormed(s)
  {
    forall p | p in s.live :: PinnedInView(s.zone[p], s.now, s.window, s.live[p])
  }

  /** Version `k` was still authoritative after second `since`. */
  ghost predicate UsedSince(h: History, k: int, since: nat) {
    0 <= k < |h| && (k == |h| - 1 || since < h[k + 1].since)
  }

  ghost predicate PinnedSince(h: History, since: nat, hash: string) {
    forall k | UsedSince(h, k, since) :: Pins(h[k].rrset, hash)
  }

  // ---- what holds of every job and every execution, however it was started ----

  ghost predicate JobOk(s: State, job: JobRecord) {
    && job.ports == s.ports && PortsKnown(s, job.ports)
    && job.reload
    && s.window <= WaitSeconds(job.ttl)
    && Deadlines(job, s.now)
  }

  ghost predicate PcOk(s: State)
    requires s.exec.Running?
  {
    var job := s.exec.job;
    match s.exec.at
    case Publishing(i) => i <= |job.ports| && job.phase == AtPublish
    case Checking => job.phase == AtWaitBeforeReload
    case Reloading(_) => job.phase == AtReload
    case PruneWait => job.phase == AtWaitBeforePrune
    case Sleeping(reason, entered, until) =>
      && job.phase == (if reason == BeforeReload then AtWaitBeforeReload else AtWaitBeforePrune)
      && var deadline := if reason == BeforeReload then job.reloadAfter else job.pruneAfter;
      && deadline.Some? && until == Max(entered, deadline.value)
    case Saving => job.phase != AtPublish
    case Pruning(i) => i <= |job.ports| && job.phase == AtPrune
  }

  ghost predicate Sound(s: State) {
    && WellFormed(s)
    && (forall job | job in s.saved :: JobOk(s, job))
    && (s.disk.Some? ==> s.disk.value in s.saved)
    && (s.exec.Running? ==> JobOk(s, s.exec.job) && MatchesFile(s, s.exec.job) && PcOk(s))
  }

  lemma JobStaysOk(s: State, t: State, job: JobRecord)
    requires JobOk(s, job) && SameWorld(s, t)
    ensures JobOk(t, job)
  {
  }

  lemma SavedStaySound(e: Event, s: State)
    requires Sound(s) && Enabled(e, s)
    ensures var t := Apply(e, s);
      && (forall job | job in t.saved :: JobOk(t, job))
      && (t.disk.Some? ==> t.disk.value in t.saved)
  {
    var t := Apply(e, s);
    forall job | job in t.saved ensures JobOk(t, job) {
      if job in s.saved {
        JobStaysOk(s, t, job);
      }
    }
  }

  /** The marks keep a job's deadlines true. */
  lemma PublishMark(job: JobRecord, now: nat)
    requires job.reload && job.phase == AtPublish && Deadlines(job, now)
    ensures Deadlines(job.Published(now), now)
  {
  }

  lemma ReloadMark(job: JobRecord, now: nat)
    requires job.AwaitsReload() && Deadlines(job, now)
    ensures Deadlines(job.Reloaded(now), now)
  {
  }

  lemma WakeMark(job: JobRecord, now: nat)
    requires Deadlines(job, now)
    ensures job.phase == AtWaitBeforeReload && job.reloadAfter.value <= now ==> Deadlines(job.WaitingReload(), now)
    ensures job.phase == AtWaitBeforePrune && job.pruneAfter.value <= now ==> Deadlines(job.ReadyToPrune(), now)
  {
  }

  lemma MarksKeepDeadlines(e: Event, s: State)
    requires Sound(s) && Enabled(e, s) && s.exec.Running? && Apply(e, s).exec.Running?
    ensures JobOk(Apply(e, s), Apply(e, s).exec.job)
  {
    if e.PortsPublished? {
      PublishMark(s.exec.job, s.now);
    } else if e.SeenLive? || e.ReloadReturned? {
      ReloadMark(s.exec.job, s.now);
    } else if e.Wake? {
      WakeMark(s.exec.job, s.now);
    } else {
      JobStaysOk(s, Apply(e, s), s.exec.job);
    }
  }

  lemma RunningStaysSound(e: Event, s: State)
    requires Sound(s) && Enabled(e, s) && s.exec.Running? && Apply(e, s).exec.Running?
    ensures var t := Apply(e, s);
      JobOk(t, t.exec.job) && MatchesFile(t, t.exec.job) && PcOk(t)
  {
    MarksKeepDeadlines(e, s);
    if e.Save? {
      SavedPcOk(Apply(e, s));
    }
  }

  lemma StartIsSound(e: Event, s: State)
    requires Sound(s) && Enabled(e, s) && s.exec.Idle? && Apply(e, s).exec.Running?
    ensures var t := Apply(e, s);
      JobOk(t, t.exec.job) && MatchesFile(t, t.exec.job) && PcOk(t)
  {
    SavedPcOk(Apply(e, s));
  }

  /** Holds after every event whatsoever, replays of old copies of a job included. */
  lemma SoundStep(e: Event, s: State)
    requires Sound(s) && Enabled(e, s)
    ensures Sound(Apply(e, s))
  {
    ApplyWellFormed(e, s);
    SavedStaySound(e, s);
    if Apply(e, s).exec.Running? {
      if s.exec.Running? {
        RunningStaysSound(e, s);
      } else {
        StartIsSound(e, s);
      }
    }
  }

  ghost predicate SameWorld(s: State, t: State) {
    t.ports == s.ports && t.live.Keys == s.live.Keys && t.window == s.window && s.now <= t.now
  }

  lemma SavedPcOk(t: State)
    requires t.exec.Running? && t.exec.at == StartPc(t.exec.job.phase)
    ensures PcOk(t)
  {
  }

  // ---- views and histories ----

  lemma WriteView(h: History, now: nat, window: nat, hash: string, rrset: Rrset)
    requires PinnedInView(h, now, window, hash) && Pins(rrset, hash)
    ensures PinnedInView(h + [Version(now, rrset)], now, window, hash)
  {
    var g := h + [Version(now, rrset)];
    forall k | InView(g, k, now, window) ensures Pins(g[k].rrset, hash) {
      if k < |h| - 1 {
        assert g[k + 1] == h[k + 1];
      }
      assert k < |h| ==> InView(h, k, now, window);
    }
  }

  lemma WriteSince(h: History, since: nat, hash: string, now: nat, rrset: Rrset)
    requires PinnedSince(h, since, hash) && Pins(rrset, hash)
    ensures PinnedSince(h + [Version(now, rrset)], since, hash)
  {
    var g := h + [Version(now, rrset)];
    forall k | UsedSince(g, k, since) ensures Pins(g[k].rrset, hash) {
      if k < |h| - 1 {
        assert g[k + 1] == h[k + 1];
      }
      assert k < |h| ==> UsedSince(h, k, since);
    }
  }

  /** A hash pinned since a full window ago is in every copy in use. */
  lemma SinceCoversView(h: History, since: nat, now: nat, window: nat, hash: string)
    requires PinnedSince(h, since, hash) && since + window <= now
    ensures PinnedInView(h, now, window, hash)
  {
    assert forall k | InView(h, k, now, window) :: UsedSince(h, k, since);
  }

  lemma PinsCurrent(s: State, p: Port)
    requires WellFormed(s) && Safe(s) && p in s.live
    ensures Pins(Current(s, p), s.live[p])
  {
    assert InView(s.zone[p], |s.zone[p]| - 1, s.now, s.window);
  }

  lemma PinsIgnoresCase(rrset: Rrset, a: string, b: string)
    requires Pins(rrset, a) && EqIgnoreCase(a, b)
    ensures Pins(rrset, b)
  {
    var r :| r in rrset && r.IsDaneEe() && r.HashMatches(a);
    assert r.HashMatches(b);
  }

  // ---- safety of one step ----

  /** What must be true when the reload command runs: every copy in use pins the new hash. */
  ghost predicate ReloadGuard(s: State)
    requires WellFormed(s) && s.exec.Running? && PortsKnown(s, s.exec.job.ports)
  {
    forall p | p in s.exec.job.ports :: PinnedInView(s.zone[p], s.now, s.window, s.file)
  }

  lemma WriteSafe(s: State, p: Port, rrset: Rrset)
    requires WellFormed(s) && Safe(s) && p in s.live && Pins(rrset, s.live[p])
    ensures WellFormed(Write(s, p, rrset)) && Safe(Write(s, p, rrset))
  {
    WriteWellFormed(s, p, rrset);
    WriteView(s.zone[p], s.now, s.window, s.live[p], rrset);
  }

  /** Only a reload can break safety, and only where the guard does not hold. */
  lemma SafeStep(e: Event, s: State)
    requires Sound(s) && Safe(s) && Enabled(e, s)
    requires e.ReloadSwitch? ==> ReloadGuard(s)
    ensures WellFormed(Apply(e, s)) && Safe(Apply(e, s))
  {
    ApplyWellFormed(e, s);
    match e
    case PublishPort =>
      var p := ThisPort(s);
      PinsCurrent(s, p);
      RolloverPublishPins(Current(s, p), s.file, s.live[p]);
      WriteSafe(s, p, AfterPublish(Current(s, p), s.file, Mode.Rollover));
    case DeleteStaleRecord(record) =>
      var p := ThisPort(s);
      PinsCurrent(s, p);
      DeleteStale(Current(s, p), s.live[p], record);
      WriteSafe(s, p, Without(Current(s, p), record));
    case WritePruned =>
      var p := ThisPort(s);
      PinsCurrent(s, p);
      PrunePins(Current(s, p), s.live[p], s.live[p]);
      WriteSafe(s, p, AfterPrune(Current(s, p), s.live[p]));
    case Tick(d) =>
      forall p, k | p in s.live && InView(s.zone[p], k, s.now + d, s.window)
        ensures Pins(s.zone[p][k].rrset, s.live[p])
      {
        assert InView(s.zone[p], k, s.now, s.window);
      }
    case _ =>
  }

  /** The guard is exact: it holds just when no reload, whichever ports it switches, can break safety. */
  lemma ReloadGuardExact(s: State)
    requires Sound(s) && Safe(s) && s.exec.Running? && s.exec.at.Reloading?
    ensures ReloadGuard(s) <==>
      forall switched: set<Port> | Enabled(ReloadSwitch(switched), s) ::
        WellFormed(Apply(ReloadSwitch(switched), s)) && Safe(Apply(ReloadSwitch(switched), s))
  {
    if ReloadGuard(s) {
      forall switched: set<Port> | Enabled(ReloadSwitch(switched), s)
        ensures WellFormed(Apply(ReloadSwitch(switched), s)) && Safe(Apply(ReloadSwitch(switched), s))
      {
        SafeStep(ReloadSwitch(switched), s);
      }
    } else {
      var p :| p in s.exec.job.ports && !PinnedInView(s.zone[p], s.now, s.window, s.file);
      var e := ReloadSwitch({p});
      assert Enabled(e, s);
      ApplyWellFormed(e, s);
      assert Apply(e, s).live[p] == s.file;
      assert !Safe(Apply(e, s));
    }
  }

  // ---- runs that resume from disk ----

  /** A job past its publish has had its hash pinned, on all its ports, ever since. */
  ghost predicate Covered(s: State, job: JobRecord)
    requires WellFormed(s)
  {
    job.AwaitsReload() ==>
      forall p | p in job.ports && p in s.zone && job.publishedAt.Some? ::
        PinnedSince(s.zone[p], job.publishedAt.value, job.certificate)
  }

  ghost predicate Progress(s: State)
    requires WellFormed(s) && s.exec.Running?
  {
    && Covered(s, s.exec.job)
    && (s.exec.at.Publishing? ==>
          forall i | 0 <= i < s.exec.at.next && i < |s.exec.job.ports| && s.exec.job.ports[i] in s.zone ::
            Pins(Current(s, s.exec.job.ports[i]), s.file))
    && (s.exec.at.Pruning? && s.disk.Some? ==> !s.disk.value.AwaitsReload())
  }

  ghost predicate Pinned(s: State)
    requires WellFormed(s)
  {
    && (s.disk.Some? ==> Covered(s, s.disk.value))
    && (s.exec.Running? ==> Progress(s))
  }

  lemma PinnedGuards(s: State)
    requires Sound(s) && Pinned(s) && s.exec.Running? && s.exec.at.Reloading?
    ensures ReloadGuard(s)
  {
    var job := s.exec.job;
    forall p | p in job.ports ensures PinnedInView(s.zone[p], s.now, s.window, s.file) {
      SinceCoversView(s.zone[p], job.publishedAt.value, s.now, s.window, job.certificate);
      forall k | InView(s.zone[p], k, s.now, s.window) ensures Pins(s.zone[p][k].rrset, s.file) {
        PinsIgnoresCase(s.zone[p][k].rrset, job.certificate, s.file);
      }
    }
  }

  /** Publishing more keeps every job covered. */
  lemma PublishCovers(s: State, job: JobRecord, p: Port, hash: string)
    requires WellFormed(s) && p in s.zone && Covered(s, job)
    ensures var t := Write(s, p, AfterPublish(Current(s, p), hash, Mode.Rollover));
            WellFormed(t) && Covered(t, job)
  {
    var rrset := AfterPublish(Current(s, p), hash, Mode.Rollover);
    WriteWellFormed(s, p, rrset);
    if job.AwaitsReload() && p in job.ports && job.publishedAt.Some? {
      RolloverPublishPins(Current(s, p), hash, job.certificate);
      assert UsedSince(s.zone[p], |s.zone[p]| - 1, job.publishedAt.value);
      WriteSince(s.zone[p], job.publishedAt.value, job.certificate, s.now, rrset);
    }
  }

  /** Once all ports pin the file's hash, a mark made now is covered. */
  lemma MarkCovered(s: State)
    requires Sound(s) && Pinned(s) && s.exec.Running? && s.exec.at == Publishing(|s.exec.job.ports|)
    ensures Covered(Apply(PortsPublished, s), s.exec.job.Published(s.now))
  {
    var job := s.exec.job;
    forall p | p in job.ports ensures PinnedSince(s.zone[p], s.now, job.certificate) {
      var i :| 0 <= i < |job.ports| && job.ports[i] == p;
      assert Pins(Current(s, job.ports[i]), s.file);
      PinsIgnoresCase(Current(s, p), s.file, job.certificate);
    }
  }

  lemma PublishPortPinned(s: State)
    requires Sound(s) && Pinned(s) && Enabled(PublishPort, s)
    ensures WellFormed(Apply(PublishPort, s)) && Pinned(Apply(PublishPort, s))
  {
    ApplyWellFormed(PublishPort, s);
    var job, t := s.exec.job, Apply(PublishPort, s);
    forall i: nat | i < t.exec.at.next && i < |job.ports| && job.ports[i] in t.zone
      ensures Pins(Current(t, job.ports[i]), t.file)
    {
      AfterPublishPort(s, job.ports[i]);
      PublishThenNothingToDo(Current(s, ThisPort(s)), s.file, Mode.Rollover, Mode.Rollover, false);
    }
    if s.disk.Some? {
      PublishCovers(s, s.disk.value, ThisPort(s), s.file);
      assert Covered(t, s.disk.value);
    }
  }

  lemma CoveredElsewhere(s: State, t: State, job: JobRecord)
    requires WellFormed(s) && WellFormed(t) && t.zone == s.zone && Covered(s, job)
    ensures Covered(t, job)
  {
  }

  /** While it prunes, the only job on disk has no reload left to do, so nothing is uncovered. */
  lemma PrunePinned(e: Event, s: State)
    requires Sound(s) && Pinned(s) && Enabled(e, s) && (e.DeleteStaleRecord? || e.WritePruned?)
    ensures WellFormed(Apply(e, s)) && Pinned(Apply(e, s))
  {
    ApplyWellFormed(e, s);
  }

  ghost predicate IsControl(e: Event) {
    !e.Replay? && !e.PublishPort? && !e.PortsPublished? && !e.DeleteStaleRecord? && !e.WritePruned?
  }

  lemma ControlDisk(e: Event, s: State)
    requires Sound(s) && Pinned(s) && Enabled(e, s) && s.exec.Running? && IsControl(e)
    ensures Apply(e, s).zone == s.zone
    ensures Apply(e, s).disk.Some? ==> Covered(s, Apply(e, s).disk.value)
  {
  }

  lemma ControlJob(e: Event, s: State)
    requires Sound(s) && Pinned(s) && Enabled(e, s) && s.exec.Running? && IsControl(e)
    ensures Apply(e, s).exec.Running? ==> Covered(s, Apply(e, s).exec.job)
  {
  }

  lemma ControlPc(e: Event, s: State)
    requires Sound(s) && Pinned(s) && Enabled(e, s) && s.exec.Running? && IsControl(e)
    ensures var t := Apply(e, s);
      t.exec.Running? ==>
        && (t.exec.at.Publishing? ==> t.exec == s.exec && t.file == s.file)
        && (t.exec.at.Pruning? && t.disk.Some? ==> !t.disk.value.AwaitsReload())
  {
  }

  lemma ControlPinned(e: Event, s: State)
    requires Sound(s) && Pinned(s) && Enabled(e, s) && s.exec.Running? && IsControl(e)
    ensures WellFormed(Apply(e, s)) && Pinned(Apply(e, s))
  {
    ApplyWellFormed(e, s);
    ControlDisk(e, s);
    ControlJob(e, s);
    ControlPc(e, s);
    var t := Apply(e, s);
    if t.disk.Some? {
      CoveredElsewhere(s, t, t.disk.value);
    }
    if t.exec.Running? {
      CoveredElsewhere(s, t, t.exec.job);
    }
  }

  lemma StartPinned(e: Event, s: State)
    requires Sound(s) && Pinned(s) && Enabled(e, s) && s.exec.Idle? && !e.Replay?
    ensures WellFormed(Apply(e, s)) && Pinned(Apply(e, s))
  {
    ApplyWellFormed(e, s);
    var t := Apply(e, s);
    if t.disk.Some? {
      CoveredElsewhere(s, t, t.disk.value);
    }
  }

  lemma PinnedStep(e: Event, s: State)
    requires Sound(s) && Pinned(s) && Enabled(e, s) && !e.Replay?
    ensures WellFormed(Apply(e, s)) && Pinned(Apply(e, s))
  {
    if s.exec.Idle? {
      StartPinned(e, s);
    } else {
      match e
      case PublishPort => PublishPortPinned(s);
      case PortsPublished => ApplyWellFormed(e, s); MarkCovered(s);
      case DeleteStaleRecord(_) => PrunePinned(e, s);
      case WritePruned => PrunePinned(e, s);
      case _ => ControlPinned(e, s);
    }
  }

  // ---- the theorem ----

  ghost predicate FromDisk(es: seq<Event>) {
    forall e | e in es :: !e.Replay?
  }

  /** Nothing saved, nothing running, and every copy in use pins the key in service. */
  ghost predicate Initial(s: State) {
    && WellFormed(s) && Safe(s)
    && s.disk == None && s.exec == Idle && s.saved == {}
  }

  lemma {:induction false} InvariantRun(s: State, es: seq<Event>)
    requires Sound(s) && Safe(s) && Pinned(s) && IsRun(s, es) && FromDisk(es)
    ensures Sound(After(s, es)) && Safe(After(s, es)) && Pinned(After(s, es))
    decreases es
  {
    if es != [] {
      assert es[0] in es;
      if es[0].ReloadSwitch? {
        PinnedGuards(s);
      }
      SoundStep(es[0], s);
      SafeStep(es[0], s);
      PinnedStep(es[0], s);
      InvariantRun(Apply(es[0], s), es[1..]);
    }
  }

  /**
   * Crashes anywhere, resumes, schedules, replaced certificates, failed, repeated and partial
   * reloads: at every moment of every such run each client's copy pins the key it meets.
   */
  lemma ViewsPinLiveKeys(s: State, es: seq<Event>)
    requires Initial(s) && IsRun(s, es) && FromDisk(es)
    ensures Safe(After(s, es))
  {
    InvariantRun(s, es);
  }

  lemma {:induction false} RunPrefix(s: State, es: seq<Event>, n: nat)
    requires IsRun(s, es) && n <= |es|
    ensures IsRun(s, es[..n])
    decreases es
  {
    if n > 0 {
      RunPrefix(Apply(es[0], s), es[1..], n - 1);
      assert es[..n][1..] == es[1..][..n - 1];
    }
  }

  ghost predicate AlwaysSafe(s: State, es: seq<Event>)
    requires IsRun(s, es)
  {
    forall n: nat | n <= |es| :: IsRun(s, es[..n]) && Safe(After(s, es[..n]))
  }

  /** The same from any state that such a run can be in, and at every moment on the way. */
  lemma AlwaysSafeFrom(s: State, es: seq<Event>)
    requires Sound(s) && Safe(s) && Pinned(s) && IsRun(s, es) && FromDisk(es)
    ensures AlwaysSafe(s, es)
  {
    forall n: nat | n <= |es| ensures IsRun(s, es[..n]) && Safe(After(s, es[..n])) {
      RunPrefix(s, es, n);
      InvariantRun(s, es[..n]);
    }
  }
}
