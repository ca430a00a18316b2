/**
 * `resume` loads every job first and runs them one by one (src/main.rs:649-722), so it may run a
 * copy of a job that has since moved on, or finished. The certificate check alone does not make
 * that safe; this is exactly when it is.
 */
module Replay {
  import opened Text
  import opened Publish
  import opened Rollover
  import opened Machine
  import opened Safety

  // ---- the guard of a prune ----

  /** A copy that some process may still run and that has its reload at this port ahead of it. */
  ghost predicate IsHeld(s: State, job: JobRecord, p: Port) {
    job in s.saved && job.AwaitsReload() && p in job.ports
  }

  ghost predicate IsPrune(e: Event) {
    e.WritePruned? || e.DeleteStaleRecord?
  }

  /** The prune leaves this copy's hash alone: it is the one in service, or its record is not the last one deleted. */
  ghost predicate Spares(e: Event, s: State, job: JobRecord)
    requires WellFormed(s) && Enabled(e, s) && IsPrune(e)
  {
    var p := ThisPort(s);
    match e
    case WritePruned => EqIgnoreCase(s.live[p], job.certificate)
    case DeleteStaleRecord(record) =>
      record.HashMatches(job.certificate) ==>
        exists r :: r in Current(s, p) && r != record && r.IsDaneEe() && r.HashMatches(job.certificate)
  }

  /** What a prune would have to check first: that it spares the hash of every copy still held. */
  ghost predicate Guarded(e: Event, s: State)
    requires WellFormed(s) && Enabled(e, s)
  {
    IsPrune(e) ==> forall job | IsHeld(s, job, ThisPort(s)) :: Spares(e, s, job)
  }

  ghost predicate IsGuarded(s: State, es: seq<Event>)
    requires IsRun(s, es)
    decreases es
  {
    es == [] || (Guarded(es[0], s) && IsGuarded(Apply(es[0], s), es[1..]))
  }

  function Pruned(e: Event, ours: Rrset, live: string): Rrset
    requires IsPrune(e)
  {
    if e.WritePruned? then AfterPrune(ours, live) else Without(ours, e.record)
  }

  /** The guard is right about each hash: a pinned one stays pinned just if it is spared. */
  lemma SparesPins(e: Event, s: State, job: JobRecord)
    requires WellFormed(s) && Enabled(e, s) && IsPrune(e) && Pins(Current(s, ThisPort(s)), job.certificate)
    ensures Spares(e, s, job) <==>
      Pins(Pruned(e, Current(s, ThisPort(s)), s.live[ThisPort(s)]), job.certificate)
  {
    var ours, live := Current(s, ThisPort(s)), s.live[ThisPort(s)];
    if e.WritePruned? {
      PrunePins(ours, live, job.certificate);
    } else {
      WithoutMembers(ours, e.record);
      var r :| r in ours && r.IsDaneEe() && r.HashMatches(job.certificate);
      assert !e.record.HashMatches(job.certificate) ==> r != e.record;
    }
  }

  // ---- guarded runs ----

  /** Every copy still held, and the job running, has its hash pinned since it was published. */
  ghost predicate CopiesCovered(s: State)
    requires WellFormed(s)
  {
    && (forall job | job in s.saved :: Covered(s, job))
    && (s.exec.Running? ==> Covered(s, s.exec.job))
    && (s.exec.Running? && s.exec.at.Publishing? ==>
          forall i | 0 <= i < s.exec.at.next && i < |s.exec.job.ports| && s.exec.job.ports[i] in s.zone ::
            Pins(Current(s, s.exec.job.ports[i]), s.file))
  }

  lemma CopiesGuard(s: State)
    requires Sound(s) && CopiesCovered(s) && s.exec.Running? && s.exec.at.Reloading?
    ensures ReloadGuard(s)
  {
    PinnedGuards(s.(disk := None));
  }

  lemma WriteCovers(s: State, job: JobRecord, p: Port, rrset: Rrset)
    requires WellFormed(s) && p in s.zone && Covered(s, job)
    requires Pins(Current(s, p), job.certificate) ==> Pins(rrset, job.certificate)
    ensures WellFormed(Write(s, p, rrset)) && Covered(Write(s, p, rrset), job)
  {
    WriteWellFormed(s, p, rrset);
    if job.AwaitsReload() && p in job.ports && job.publishedAt.Some? {
      assert UsedSince(s.zone[p], |s.zone[p]| - 1, job.publishedAt.value);
      WriteSince(s.zone[p], job.publishedAt.value, job.certificate, s.now, rrset);
    }
  }

  lemma PrunedState(e: Event, s: State)
    requires WellFormed(s) && Enabled(e, s) && IsPrune(e)
    ensures var rrset := Pruned(e, Current(s, ThisPort(s)), s.live[ThisPort(s)]);
      && Apply(e, s) == Write(s, ThisPort(s), rrset)
      && WellFormed(Apply(e, s)) && Current(Apply(e, s), ThisPort(s)) == rrset
  {
    ApplyWellFormed(e, s);
    CurrentAfterWrite(s, ThisPort(s), Pruned(e, Current(s, ThisPort(s)), s.live[ThisPort(s)]), ThisPort(s));
  }

  lemma CoveredIsCurrent(s: State, job: JobRecord, p: Port)
    requires Sound(s) && JobOk(s, job) && Covered(s, job) && job.AwaitsReload() && p in job.ports
    ensures Pins(Current(s, p), job.certificate)
  {
    assert UsedSince(s.zone[p], |s.zone[p]| - 1, job.publishedAt.value);
  }

  lemma GuardedPruneCovers(e: Event, s: State, job: JobRecord)
    requires Sound(s) && Enabled(e, s) && IsPrune(e) && Guarded(e, s) && job in s.saved && Covered(s, job)
    ensures WellFormed(Apply(e, s)) && Covered(Apply(e, s), job)
  {
    var p := ThisPort(s);
    PrunedState(e, s);
    if IsHeld(s, job, p) {
      CoveredIsCurrent(s, job, p);
      SparesPins(e, s, job);
      WriteCovers(s, job, p, Pruned(e, Current(s, p), s.live[p]));
    }
  }

  lemma PruneCopies(e: Event, s: State)
    requires Sound(s) && CopiesCovered(s) && Enabled(e, s) && IsPrune(e) && Guarded(e, s)
    ensures WellFormed(Apply(e, s)) && CopiesCovered(Apply(e, s))
  {
    PrunedState(e, s);
    var t := Apply(e, s);
    forall job | job in t.saved ensures Covered(t, job) {
      GuardedPruneCovers(e, s, job);
    }
    assert t.exec == s.exec && s.exec.job.phase == AtPrune;
  }

  lemma PublishCopies(s: State)
    requires Sound(s) && CopiesCovered(s) && Enabled(PublishPort, s)
    ensures WellFormed(Apply(PublishPort, s)) && CopiesCovered(Apply(PublishPort, s))
  {
    ApplyWellFormed(PublishPort, s);
    var t := Apply(PublishPort, s);
    assert t.saved == s.saved && t.file == s.file && t.exec.job == s.exec.job;
    forall job | Covered(s, job) ensures Covered(t, job) {
      PublishCovers(s, job, ThisPort(s), s.file);
    }
    forall i: nat | i < t.exec.at.next && i < |s.exec.job.ports| && s.exec.job.ports[i] in t.zone
      ensures Pins(Current(t, s.exec.job.ports[i]), t.file)
    {
      AfterPublishPort(s, s.exec.job.ports[i]);
      PublishThenNothingToDo(Current(s, ThisPort(s)), s.file, Mode.Rollover, Mode.Rollover, false);
    }
  }

  ghost predicate WritesNoRrset(e: Event) {
    !e.WritePruned? && !e.DeleteStaleRecord? && !e.PublishPort? && !e.PortsPublished?
  }

  /** Steps that write no RRset: what they save or take up was covered before. */
  lemma OtherZones(e: Event, s: State)
    requires Sound(s) && Enabled(e, s) && WritesNoRrset(e)
    ensures Apply(e, s).zone == s.zone
  {
  }

  lemma OtherSaves(e: Event, s: State)
    requires Sound(s) && CopiesCovered(s) && Enabled(e, s) && WritesNoRrset(e)
    ensures forall job | job in Apply(e, s).saved :: Covered(s, job)
  {
  }

  lemma OtherJobs(e: Event, s: State)
    requires Sound(s) && CopiesCovered(s) && Enabled(e, s) && WritesNoRrset(e)
    ensures var t := Apply(e, s);
      t.exec.Running? ==>
        && Covered(s, t.exec.job)
        && (t.exec.at.Publishing? ==> (t.exec == s.exec && t.file == s.file) || t.exec.at.next == 0)
  {
  }

  lemma OtherCopies(e: Event, s: State)
    requires Sound(s) && CopiesCovered(s) && Enabled(e, s) && WritesNoRrset(e)
    ensures WellFormed(Apply(e, s)) && CopiesCovered(Apply(e, s))
  {
    ApplyWellFormed(e, s);
    OtherZones(e, s);
    OtherSaves(e, s);
    OtherJobs(e, s);
    var t := Apply(e, s);
    forall job | job in t.saved ensures Covered(t, job) {
      CoveredElsewhere(s, t, job);
    }
    if t.exec.Running? {
      CoveredElsewhere(s, t, t.exec.job);
    }
  }

  lemma MarkCopies(s: State)
    requires Sound(s) && CopiesCovered(s) && Enabled(PortsPublished, s)
    ensures WellFormed(Apply(PortsPublished, s)) && CopiesCovered(Apply(PortsPublished, s))
  {
    ApplyWellFormed(PortsPublished, s);
    MarkCovered(s.(disk := None));
    var t := Apply(PortsPublished, s);
    forall job | job in t.saved ensures Covered(t, job) {
      CoveredElsewhere(s, t, job);
    }
  }

  lemma CopiesStep(e: Event, s: State)
    requires Sound(s) && CopiesCovered(s) && Enabled(e, s) && Guarded(e, s)
    ensures WellFormed(Apply(e, s)) && CopiesCovered(Apply(e, s))
  {
    match e
    case PublishPort => PublishCopies(s);
    case WritePruned => PruneCopies(e, s);
    case DeleteStaleRecord(_) => PruneCopies(e, s);
    case PortsPublished => MarkCopies(s);
    case _ => OtherCopies(e, s);
  }

  lemma GuardedStep(e: Event, s: State)
    requires Sound(s) && Safe(s) && CopiesCovered(s) && Enabled(e, s) && Guarded(e, s)
    ensures Sound(Apply(e, s)) && Safe(Apply(e, s)) && CopiesCovered(Apply(e, s))
  {
    if e.ReloadSwitch? {
      CopiesGuard(s);
    }
    SoundStep(e, s);
    SafeStep(e, s);
    CopiesStep(e, s);
  }

  lemma {:induction false} GuardedRun(s: State, es: seq<Event>)
    requires Sound(s) && Safe(s) && CopiesCovered(s) && IsRun(s, es) && IsGuarded(s, es)
    ensures Safe(After(s, es))
    decreases es
  {
    if es != [] {
      GuardedStep(es[0], s);
      GuardedRun(Apply(es[0], s), es[1..]);
    }
  }

  /** Any copies, replayed at any time and in any order under any certificate file, keep a guarded run safe. */
  lemma GuardedReplaysAreSafe(s: State, es: seq<Event>)
    requires Initial(s) && IsRun(s, es) && IsGuarded(s, es)
    ensures Safe(After(s, es))
  {
    GuardedRun(s, es);
  }

  // ---- one copy replayed up to its reload ----

  /** Stop whatever runs, put the copy's certificate back in the file, and run the copy. */
  function Restarted(u: State, job: JobRecord): seq<Event> {
    (if u.exec.Running? then [Crash] else [])
    + (if MatchesFile(u, job) then [] else [FileChange(job.certificate)])
    + [Replay(job)]
  }

  /** The wait that a copy saved before it still has to sit out. */
  function Waited(u: State, job: JobRecord): seq<Event> {
    if job.phase == AtReload then []
    else [StartReloadSleep, Tick(Remaining(job.reloadAfter, u.now)), Wake, Save]
  }

  function Continuation(u: State, job: JobRecord, p: Port): seq<Event> {
    Restarted(u, job) + Waited(u, job) + [ReloadSwitch({p})]
  }

  ghost predicate SafeAfter(s: State, es: seq<Event>) {
    IsRun(s, es) && Safe(After(s, es))
  }

  lemma RestartRuns(u: State, job: JobRecord) returns (v: State)
    requires Sound(u) && job in u.saved
    ensures Reaches(u, Restarted(u, job), v) && Sound(v) && MatchesFile(v, job)
    ensures v == u.(file := v.file, exec := Running(job, StartPc(job.phase)))
  {
    v := u;
    var es: seq<Event> := [];
    if u.exec.Running? {
      SoundStep(Crash, v);
      ReachesNext(u, es, v, Crash);
      v, es := Apply(Crash, v), es + [Crash];
    }
    if !MatchesFile(u, job) {
      SoundStep(FileChange(job.certificate), v);
      ReachesNext(u, es, v, FileChange(job.certificate));
      v, es := Apply(FileChange(job.certificate), v), es + [FileChange(job.certificate)];
    }
    SoundStep(Replay(job), v);
    ReachesNext(u, es, v, Replay(job));
    v, es := Apply(Replay(job), v), es + [Replay(job)];
    assert es == Restarted(u, job);
  }

  /** Asleep until the saved deadline, awake, saved: then the reload is due. */
  lemma WaitRuns(v: State, job: JobRecord) returns (w: State)
    requires Sound(v) && v.exec == Running(job, StartPc(job.phase)) && job.AwaitsReload()
    ensures Reaches(v, Waited(v, job), w) && Sound(w) && IsAt(w, Reloading(false)) && w.exec.job.ports == job.ports
    ensures w.zone == v.zone && w.live == v.live && w.window == v.window && w.file == v.file
    ensures w.now == Max(v.now, job.reloadAfter.value)
  {
    w := v;
    if job.phase != AtReload {
      var d := Remaining(job.reloadAfter, v.now);
      var es: seq<Event> := [];
      w, es := Take(v, es, w, StartReloadSleep);
      w, es := Take(v, es, w, Tick(d));
      w, es := Take(v, es, w, Wake);
      w, es := Take(v, es, w, Save);
      assert es == Waited(v, job);
    }
  }

  lemma Take(s: State, es: seq<Event>, t: State, e: Event) returns (u: State, fs: seq<Event>)
    requires Reaches(s, es, t) && Sound(t) && Enabled(e, t)
    ensures u == Apply(e, t) && fs == es + [e] && Reaches(s, fs, u) && Sound(u)
  {
    SoundStep(e, t);
    ReachesNext(s, es, t, e);
    u, fs := Apply(e, t), es + [e];
  }

  lemma {:induction false} ReachesConcat(s: State, es: seq<Event>, t: State, fs: seq<Event>, u: State)
    requires Reaches(s, es, t) && Reaches(t, fs, u)
    ensures Reaches(s, es + fs, u)
    decreases es
  {
    if es == [] {
      assert es + fs == fs;
    } else {
      ReachesConcat(Apply(es[0], s), es[1..], t, fs, u);
      assert (es + fs)[1..] == es[1..] + fs;
    }
  }

  lemma SwitchRuns(u: State, es: seq<Event>, w: State, p: Port)
    requires Reaches(u, es, w) && IsAt(w, Reloading(false)) && p in w.exec.job.ports
    ensures Reaches(u, es + [ReloadSwitch({p})], Apply(ReloadSwitch({p}), w))
  {
    ReachesNext(u, es, w, ReloadSwitch({p}));
  }

  lemma ContinuationRuns(u: State, job: JobRecord, p: Port) returns (v: State)
    requires Sound(u) && IsHeld(u, job, p)
    ensures Reaches(u, Continuation(u, job, p), v) && MatchesFile(v, job)
    ensures v.zone == u.zone && v.window == u.window && v.now == Max(u.now, job.reloadAfter.value)
    ensures v.live == map q | q in u.live :: if q == p then v.file else u.live[q]
  {
    var r := RestartRuns(u, job);
    var w := WaitRuns(r, job);
    assert Waited(r, job) == Waited(u, job);
    ReachesConcat(u, Restarted(u, job), r, Waited(u, job), w);
    SwitchRuns(u, Restarted(u, job) + Waited(u, job), w, p);
    v := Apply(ReloadSwitch({p}), w);
    SwitchedLive(w, p);
  }

  lemma SwitchedLive(w: State, p: Port)
    requires WellFormed(w) && Enabled(ReloadSwitch({p}), w)
    ensures Apply(ReloadSwitch({p}), w).live == map q | q in w.live :: if q == p then w.file else w.live[q]
  {
  }

  lemma LaterView(h: History, now: nat, later: nat, window: nat, hash: string)
    requires PinnedInView(h, now, window, hash) && now <= later
    ensures PinnedInView(h, later, window, hash)
  {
    forall k | InView(h, k, later, window) ensures Pins(h[k].rrset, hash) {
      assert InView(h, k, now, window);
    }
  }

  lemma ViewIgnoresCase(h: History, now: nat, window: nat, a: string, b: string)
    requires PinnedInView(h, now, window, a) && EqIgnoreCase(a, b)
    ensures PinnedInView(h, now, window, b)
  {
    forall k | InView(h, k, now, window) ensures Pins(h[k].rrset, b) {
      PinsIgnoresCase(h[k].rrset, a, b);
    }
  }

  /** A replay breaks clients just if some copy in view when its reload comes does not pin its hash. */
  lemma ReplayExact(u: State, job: JobRecord, p: Port)
    requires Sound(u) && Safe(u) && IsHeld(u, job, p)
    ensures SafeAfter(u, Continuation(u, job, p))
       <==> PinnedInView(u.zone[p], Max(u.now, job.reloadAfter.value), u.window, job.certificate)
  {
    var v := ContinuationRuns(u, job, p);
    forall q | q in v.live && q != p ensures PinnedInView(v.zone[q], v.now, v.window, v.live[q]) {
      LaterView(u.zone[q], u.now, v.now, u.window, u.live[q]);
    }
    if PinnedInView(u.zone[p], v.now, u.window, job.certificate) {
      ViewIgnoresCase(u.zone[p], v.now, u.window, job.certificate, v.file);
      assert Safe(v);
    }
    if Safe(v) {
      assert PinnedInView(v.zone[p], v.now, v.window, v.live[p]);
      ViewIgnoresCase(u.zone[p], v.now, u.window, v.file, job.certificate);
    }
  }

  // ---- the guard is exact ----

  lemma CoveredReplay(u: State, job: JobRecord, p: Port)
    requires Sound(u) && Safe(u) && IsHeld(u, job, p) && Covered(u, job)
    ensures SafeAfter(u, Continuation(u, job, p))
  {
    ReplayExact(u, job, p);
    SinceCoversView(u.zone[p], job.publishedAt.value, Max(u.now, job.reloadAfter.value), u.window, job.certificate);
  }

  lemma UnpinnedReplay(u: State, job: JobRecord, p: Port)
    requires Sound(u) && Safe(u) && IsHeld(u, job, p) && !Pins(Current(u, p), job.certificate)
    ensures !SafeAfter(u, Continuation(u, job, p))
  {
    ReplayExact(u, job, p);
    assert InView(u.zone[p], |u.zone[p]| - 1, Max(u.now, job.reloadAfter.value), u.window);
  }

  /**
   * A prune spares the hash of a copy just if the copy can still be run afterwards, from whichever
   * phase it was saved in and with whatever certificate file lets it in.
   */
  lemma PruneExact(e: Event, s: State, job: JobRecord)
    requires Sound(s) && Safe(s) && Enabled(e, s) && IsPrune(e)
    requires IsHeld(s, job, ThisPort(s)) && Covered(s, job)
    ensures Spares(e, s, job) <==> SafeAfter(Apply(e, s), Continuation(Apply(e, s), job, ThisPort(s)))
  {
    var p, t := ThisPort(s), Apply(e, s);
    SoundStep(e, s);
    SafeStep(e, s);
    PrunedState(e, s);
    CoveredIsCurrent(s, job, p);
    SparesPins(e, s, job);
    if Spares(e, s, job) {
      WriteCovers(s, job, p, Pruned(e, Current(s, p), s.live[p]));
      CoveredReplay(t, job, p);
    } else {
      UnpinnedReplay(t, job, p);
    }
  }

  /** Every copy still held can be run to its reload, at any of its ports, without breaking a client. */
  ghost predicate ReplayProof(u: State) {
    forall job, p | IsHeld(u, job, p) :: SafeAfter(u, Continuation(u, job, p))
  }

  ghost predicate AlwaysReplayProof(s: State, es: seq<Event>)
    requires IsRun(s, es)
    decreases es
  {
    ReplayProof(s) && (es == [] || AlwaysReplayProof(Apply(es[0], s), es[1..]))
  }

  lemma CopiesAreProof(u: State)
    requires Sound(u) && Safe(u) && CopiesCovered(u)
    ensures ReplayProof(u)
  {
    forall job, p | IsHeld(u, job, p) ensures SafeAfter(u, Continuation(u, job, p)) {
      CoveredReplay(u, job, p);
    }
  }

  lemma UnguardedIsNotProof(e: Event, s: State)
    requires Sound(s) && Safe(s) && CopiesCovered(s) && Enabled(e, s) && !Guarded(e, s)
    ensures !ReplayProof(Apply(e, s))
  {
    var job :| IsHeld(s, job, ThisPort(s)) && !Spares(e, s, job);
    PruneExact(e, s, job);
    assert IsHeld(Apply(e, s), job, ThisPort(s));
  }

  lemma {:induction false} GuardedExactly(s: State, es: seq<Event>)
    requires Sound(s) && Safe(s) && CopiesCovered(s) && IsRun(s, es)
    ensures IsGuarded(s, es) <==> AlwaysReplayProof(s, es)
    decreases es
  {
    CopiesAreProof(s);
    if es != [] {
      if Guarded(es[0], s) {
        GuardedStep(es[0], s);
        GuardedExactly(Apply(es[0], s), es[1..]);
      } else {
        UnguardedIsNotProof(es[0], s);
        assert !AlwaysReplayProof(Apply(es[0], s), es[1..]);
      }
    }
  }

  /**
   * Whatever a run does, replays and changes of the certificate file included: at all its moments
   * every copy still held may be run, just if each of its prunes spared the hashes of the copies.
   */
  lemma ReplaysExact(s: State, es: seq<Event>)
    requires Initial(s) && IsRun(s, es)
    ensures IsGuarded(s, es) <==> AlwaysReplayProof(s, es)
  {
    GuardedExactly(s, es);
  }
}
