/** Rollover jobs: phases, deadlines and the marks that move a job forward (src/rollover.rs). */
module Rollover {
  import opened Text

  type Port = x: int | 0 <= x < 0x1_0000
  type Ttl = x: int | 0 <= x < 0x1_0000_0000

  const WAIT_TTL_MULTIPLIER := 2

  /** Two TTLs (section 8.1 of RFC 7671). A u32 doubled never saturates a u64. */
  function WaitSeconds(ttl: Ttl): nat {
    ttl * WAIT_TTL_MULTIPLIER
  }

  datatype WaitReason = BeforeReload | BeforePrune
  datatype Phase = DoPublish | DoWait(reason: WaitReason) | DoReload | DoPrune

  function Phases(reload: bool): seq<Phase> {
    if reload then [DoPublish, DoWait(BeforeReload), DoReload, DoWait(BeforePrune), DoPrune]
    else [DoPublish]
  }

  datatype JobPhase = AtPublish | AtWaitBeforeReload | AtReload | AtWaitBeforePrune | AtPrune {
    function StartIndex(): nat {
      match this
      case AtPublish => 0
      case AtWaitBeforeReload => 1
      case AtReload => 2
      case AtWaitBeforePrune => 3
      case AtPrune => 4
    }
  }

  /** How long to sleep: to the deadline and not past it, and not at all without one or after it. */
  function Remaining(deadline: Option<nat>, now: nat): (left: nat)
    ensures left == 0 <==> deadline == None || deadline.value <= now
    ensures left > 0 ==> now + left == deadline.value
  {
    match deadline
    case None => 0
    case Some(d) => if d > now then d - now else 0
  }

  function Max(a: nat, b: nat): nat {
    if a > b then a else b
  }

  /** A job as it is written to disk. */
  datatype JobRecord = JobRecord(
    ports: seq<Port>, reload: bool, ttl: Ttl, certificate: string, phase: JobPhase,
    publishedAt: Option<nat>, reloadAfter: Option<nat>, reloadedAt: Option<nat>, pruneAfter: Option<nat>)
  {
    function Published(now: nat): JobRecord {
      this.(publishedAt := Some(now),
            reloadAfter := Some(now + WaitSeconds(ttl)),
            pruneAfter := Some(now + WaitSeconds(ttl) * 2),
            phase := if reload then AtWaitBeforeReload else AtPrune)
    }

    function Reloaded(now: nat): JobRecord {
      var pruneAt := now + WaitSeconds(ttl);
      this.(reloadedAt := Some(now),
            pruneAfter := Some(if pruneAfter.Some? then Max(pruneAfter.value, pruneAt) else pruneAt),
            phase := AtWaitBeforePrune)
    }

    function WaitingReload(): JobRecord {
      this.(phase := AtReload)
    }

    function ReadyToPrune(): JobRecord {
      this.(phase := AtPrune)
    }

    predicate AwaitsReload() {
      phase == AtWaitBeforeReload || phase == AtReload
    }
  }

  function NewJob(ports: seq<Port>, ttl: Ttl, certificate: string): JobRecord {
    JobRecord(ports, true, ttl, certificate, AtPublish, None, None, None, None)
  }

  /**
   * What the four time stamps of a job say at a given moment: each phase is reached only
   * once the waits before it have run out in full.
   */
  predicate Deadlines(job: JobRecord, now: nat) {
    var wait := WaitSeconds(job.ttl);
    match job.phase
    case AtPublish =>
      job.publishedAt == None && job.reloadAfter == None && job.reloadedAt == None && job.pruneAfter == None
    case AtWaitBeforeReload =>
      PublishTimes(job, now) && job.reloadedAt == None && job.pruneAfter == Some(job.publishedAt.value + 2 * wait)
    case AtReload =>
      PublishTimes(job, now) && job.reloadedAt == None && job.pruneAfter == Some(job.publishedAt.value + 2 * wait)
      && job.reloadAfter.value <= now
    case AtWaitBeforePrune => ReloadTimes(job, now)
    case AtPrune => ReloadTimes(job, now) && job.pruneAfter.value <= now
  }

  predicate PublishTimes(job: JobRecord, now: nat) {
    && job.publishedAt.Some? && job.publishedAt.value <= now
    && job.reloadAfter == Some(job.publishedAt.value + WaitSeconds(job.ttl))
  }

  predicate ReloadTimes(job: JobRecord, now: nat) {
    && PublishTimes(job, now)
    && job.reloadedAt.Some? && job.reloadedAt.value <= now
    && job.pruneAfter == Some(Max(job.publishedAt.value + 2 * WaitSeconds(job.ttl),
                                  job.reloadedAt.value + WaitSeconds(job.ttl)))
  }

  /** The job an execution holds in memory and marks in place. */
  class Job {
    const ports: seq<Port>
    const reload: bool
    const ttl: Ttl
    const certificate: string
    var phase: JobPhase
    var publishedAt: Option<nat>
    var reloadAfter: Option<nat>
    var reloadedAt: Option<nat>
    var pruneAfter: Option<nat>

    /** What saving the job now would write. */
    function Record(): JobRecord
      reads this
    {
      JobRecord(ports, reload, ttl, certificate, phase, publishedAt, reloadAfter, reloadedAt, pruneAfter)
    }

    constructor FromRecord(r: JobRecord)
      ensures Record() == r
    {
      ports, reload, ttl, certificate, phase := r.ports, r.reload, r.ttl, r.certificate, r.phase;
      publishedAt, reloadAfter, reloadedAt, pruneAfter := r.publishedAt, r.reloadAfter, r.reloadedAt, r.pruneAfter;
    }

    method MarkPublished(now: nat)
      modifies this
      ensures Record() == old(Record()).Published(now)
    {
      publishedAt := Some(now);
      var wait := WaitSeconds(ttl);
      reloadAfter := Some(now + wait);
      pruneAfter := Some(now + wait * 2);
      phase := if reload then AtWaitBeforeReload else AtPrune;
    }

    method MarkReloaded(now: nat)
      modifies this
      ensures Record() == old(Record()).Reloaded(now)
    {
      reloadedAt := Some(now);
      var pruneAt := now + WaitSeconds(ttl);
      pruneAfter := Some(if pruneAfter.Some? then Max(pruneAfter.value, pruneAt) else pruneAt);
      phase := AtWaitBeforePrune;
    }

    method MarkAlreadyLive(now: nat)
      modifies this
      ensures Record() == old(Record()).Reloaded(now)
    {
      MarkReloaded(now);
    }

    method MarkWaitingReload()
      modifies this
      ensures Record() == old(Record()).WaitingReload()
    {
      phase := AtReload;
    }

    method MarkReadyToPrune()
      modifies this
      ensures Record() == old(Record()).ReadyToPrune()
    {
      phase := AtPrune;
    }
  }
}
