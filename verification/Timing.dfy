/** When a run may reload and prune, how long it sleeps, and how a job on disk moves forward. */
module Timing {
  import opened Text
  import opened Publish
  import opened Rollover
  import opened Machine
  import opened Safety

  lemma {:induction false} SoundRun(s: State, es: seq<Event>)
    requires Sound(s) && IsRun(s, es)
    ensures Sound(After(s, es))
    decreases es
  {
    if es != [] {
      SoundStep(es[0], s);
      SoundRun(Apply(es[0], s), es[1..]);
    }
  }

  /** In any run, replays included, the reload command runs two TTLs or more after the publish. */
  lemma NoEarlyReload(s: State, es: seq<Event>, switched: set<Port>)
    requires Initial(s) && IsRun(s, es) && Enabled(ReloadSwitch(switched), After(s, es))
    ensures var t := After(s, es); var job := t.exec.job;
      job.publishedAt.Some? && job.publishedAt.value + 2 * job.ttl <= t.now
  {
    SoundRun(s, es);
  }

  /** In any run, replays included, a prune writes only four TTLs after the publish and two after the reload. */
  lemma NoEarlyPrune(s: State, es: seq<Event>, e: Event)
    requires Initial(s) && IsRun(s, es) && Enabled(e, After(s, es)) && (e.WritePruned? || e.DeleteStaleRecord?)
    ensures var t := After(s, es); var job := t.exec.job;
      && job.publishedAt.Some? && job.publishedAt.value + 4 * job.ttl <= t.now
      && job.reloadedAt.Some? && job.reloadedAt.value + 2 * job.ttl <= t.now
  {
    SoundRun(s, es);
  }

  ghost predicate AsleepOver(s: State, job: JobRecord, reason: WaitReason) {
    s.exec.Running? && s.exec.job == job && s.exec.at.Sleeping? && s.exec.at.reason == reason
  }

  /**
   * A wait taken up again ends when the interrupted one would have: the same job asleep in two
   * runs wakes at the same second, unless the second one starts too late to sleep at all.
   */
  lemma ResumedSleepKeepsDeadline(s: State, t: State, job: JobRecord, reason: WaitReason)
    requires Sound(s) && Sound(t) && AsleepOver(s, job, reason) && AsleepOver(t, job, reason)
    requires s.exec.at.entered <= t.exec.at.entered
    ensures t.exec.at.until == Max(s.exec.at.until, t.exec.at.entered)
  {
  }

  // ---- one job, resumed from disk as often as it takes ----

  /** Events of one job's own history: no other job, certificate or old copy comes in. */
  ghost predicate OfOneJob(e: Event, s: State) {
    && !e.FileChange? && !e.ScheduleJob? && !e.Replay?
    && (e.StartRollover? ==> s.disk.Some? && MatchesFile(s, s.disk.value))
  }

  ghost predicate IsChain(s: State, es: seq<Event>)
    requires IsRun(s, es)
    decreases es
  {
    es == [] || (OfOneJob(es[0], s) && IsChain(Apply(es[0], s), es[1..]))
  }

  ghost function Index(s: State): nat
    requires s.disk.Some?
  {
    s.disk.value.phase.StartIndex()
  }

  function OrZero(deadline: Option<nat>): nat {
    if deadline.Some? then deadline.value else 0
  }

  ghost predicate SameJob(a: JobRecord, b: JobRecord) {
    a.ports == b.ports && a.ttl == b.ttl && a.certificate == b.certificate
  }

  /** The job on disk is the one running; a mark not yet saved is strictly ahead of it. */
  ghost predicate InStep(s: State) {
    s.disk.Some? && MatchesFile(s, s.disk.value) &&
    (s.exec.Running? ==>
       var disk, job := s.disk.value, s.exec.job;
       if s.exec.at.Saving? then
         && SameJob(disk, job)
         && disk.phase.StartIndex() < job.phase.StartIndex()
         && OrZero(disk.pruneAfter) <= OrZero(job.pruneAfter)
       else disk == job)
  }

  lemma InStepStep(e: Event, s: State)
    requires Sound(s) && InStep(s) && Enabled(e, s) && OfOneJob(e, s) && !e.RemoveJob?
    ensures InStep(Apply(e, s)) && SameJob(s.disk.value, Apply(e, s).disk.value)
    ensures !e.Save? ==> Apply(e, s).disk == s.disk
  {
  }

  /** Each save is one phase or more further, with a prune deadline no earlier. */
  lemma SaveAdvances(s: State)
    requires Sound(s) && InStep(s) && Enabled(Save, s)
    ensures Index(s) < Index(Apply(Save, s))
    ensures OrZero(s.disk.value.pruneAfter) <= OrZero(Apply(Save, s).disk.value.pruneAfter)
  {
    assert Apply(Save, s).disk == Some(s.exec.job);
  }

  function Saves(es: seq<Event>): nat {
    if es == [] then 0 else (if es[0] == Save then 1 else 0) + Saves(es[1..])
  }

  /**
   * However often a job is crashed and resumed, every save moves it at least one phase on, so it
   * is saved at most four times, and its prune deadline never moves back.
   */
  lemma {:induction false} ChainAdvances(s: State, es: seq<Event>)
    requires Sound(s) && InStep(s) && IsRun(s, es) && IsChain(s, es) && forall e | e in es :: e != RemoveJob
    ensures Sound(After(s, es)) && InStep(After(s, es))
    ensures Index(s) + Saves(es) <= Index(After(s, es)) <= 4
    ensures OrZero(s.disk.value.pruneAfter) <= OrZero(After(s, es).disk.value.pruneAfter)
    decreases es
  {
    if es != [] {
      assert es[0] in es;
      SoundStep(es[0], s);
      InStepStep(es[0], s);
      if es[0] == Save {
        SaveAdvances(s);
      }
      assert forall e | e in es[1..] :: e in es;
      ChainAdvances(Apply(es[0], s), es[1..]);
    }
  }
}
