/**
 * The job files (src/rollover.rs): a save is three file-system steps, and a kill between any two of
 * them, or in the middle of the write, leaves the jobs that can be loaded as they were or as they should be.
 */
module JobStore {
  import opened Text
  import opened Rollover

  const JOB_VERSION := 1

  datatype SavedJob = SavedJob(id: string, version: nat, record: JobRecord)

  /** A file that was written to its end holds its job; a truncated one holds nothing that parses. */
  datatype Content = Whole(job: SavedJob) | Torn

  type Files = map<string, Content>

  predicate IsIdChar(c: char) {
    'a' <= c <= 'z' || 'A' <= c <= 'Z' || '0' <= c <= '9' || c == '.' || c == '-' || c == '_'
  }

  /** `valid_job_id` */
  predicate ValidId(id: string) {
    && 0 < |id| < 200
    && (forall i | 0 <= i < |id| - 1 :: !(id[i] == '.' && id[i + 1] == '.'))
    && forall i | 0 <= i < |id| :: IsIdChar(id[i])
  }

  function JobPath(id: string): string { id + ".json" }

  function TmpPath(id: string): string { id + ".json.tmp" }

  // ---- the steps ----

  datatype Step = Truncate(path: string) | Fill(path: string, job: SavedJob) | Rename(from: string, onto: string) | Unlink(path: string)

  function Take(step: Step, files: Files): Files {
    match step
    case Truncate(path) => files[path := Torn]
    case Fill(path, job) => files[path := Whole(job)]
    case Rename(from, onto) => if from in files then (files - {from})[onto := files[from]] else files
    case Unlink(path) => files - {path}
  }

  function TakeAll(steps: seq<Step>, files: Files): Files {
    if steps == [] then files else TakeAll(steps[1..], Take(steps[0], files))
  }

  datatype Command = Save(job: SavedJob) | Remove(id: string)

  function Steps(c: Command): seq<Step> {
    match c
    case Save(job) =>
      [Truncate(TmpPath(job.id)), Fill(TmpPath(job.id), job), Rename(TmpPath(job.id), JobPath(job.id))]
    case Remove(id) => [Unlink(JobPath(id))]
  }

  /** The directory as the commands change it, and every system call on it so far. */
  class StateDir {
    var files: Files
    ghost var calls: seq<Step>

    method Call(step: Step)
      modifies this
      ensures files == Take(step, old(files)) && calls == old(calls) + [step]
    {
      files := Take(step, files);
      calls := calls + [step];
    }

    method SaveJob(job: SavedJob)
      modifies this
      ensures files == TakeAll(Steps(Save(job)), old(files))
      ensures var tmp := TmpPath(job.id);
        calls == old(calls) + [Truncate(tmp), Fill(tmp, job), Rename(tmp, JobPath(job.id))]
    {
      var tmp := TmpPath(job.id);
      Call(Truncate(tmp));
      Call(Fill(tmp, job));
      Call(Rename(tmp, JobPath(job.id)));
      SaveSteps(job, old(files));
    }

    /** A missing file is not an error. */
    method RemoveJob(id: string)
      modifies this
      ensures files == TakeAll(Steps(Remove(id)), old(files)) && calls == old(calls) + [Unlink(JobPath(id))]
    {
      Call(Unlink(JobPath(id)));
      TakeOne(Unlink(JobPath(id)), old(files));
    }

    method LoadJob(id: string) returns (loaded: Loaded)
      ensures loaded == Load(files, id)
    {
      if !ValidId(id) {
        return InvalidId;
      }
      if JobPath(id) !in files {
        return Missing;
      }
      match files[JobPath(id)]
      case Torn => return Unparsable;
      case Whole(job) => return if job.version != JOB_VERSION then OtherVersion else Found(job);
    }
  }

  datatype Loaded = InvalidId | Missing | Unparsable | OtherVersion | Found(job: SavedJob)

  /** `load_job_in` */
  function Load(files: Files, id: string): Loaded {
    if !ValidId(id) then InvalidId
    else if JobPath(id) !in files then Missing
    else
      match files[JobPath(id)]
      case Torn => Unparsable
      case Whole(job) => if job.version != JOB_VERSION then OtherVersion else Found(job)
  }

  lemma SaveSteps(job: SavedJob, files: Files)
    ensures var tmp := TmpPath(job.id);
      TakeAll(Steps(Save(job)), files) == (files[tmp := Torn][tmp := Whole(job)] - {tmp})[JobPath(job.id) := Whole(job)]
  {
    var steps, tmp := Steps(Save(job)), TmpPath(job.id);
    assert steps[1..][1..] == [steps[2]] && steps[2..] == [steps[2]];
    TakeOne(steps[2], files[tmp := Torn][tmp := Whole(job)]);
    assert TakeAll(steps[1..], files[tmp := Torn]) == TakeAll(steps[1..][1..], files[tmp := Torn][tmp := Whole(job)]);
  }

  lemma TakeOne(step: Step, files: Files)
    ensures TakeAll([step], files) == Take(step, files)
  {
    assert TakeAll([step], files) == TakeAll([], Take(step, files));
  }

  // ---- what can be loaded ----

  /** A job file is never the temporary file of a job. */
  lemma TmpIsNoJob(id: string, other: string)
    ensures TmpPath(id) != JobPath(other)
  {
    assert TmpPath(id)[|TmpPath(id)| - 1] == 'p' && JobPath(other)[|JobPath(other)| - 1] == 'n';
  }

  lemma PathsDiffer(id: string, other: string)
    requires id != other
    ensures JobPath(id) != JobPath(other)
  {
    assert JobPath(id)[..|JobPath(id)| - 5] == id && JobPath(other)[..|JobPath(other)| - 5] == other;
  }

  function After(c: Command, id: string, before: Loaded): Loaded {
    match c
    case Save(job) =>
      if id != job.id || !ValidId(id) then before else if job.version != JOB_VERSION then OtherVersion else Found(job)
    case Remove(gone) => if id != gone || !ValidId(id) then before else Missing
  }

  /** A command cut short after any of its steps changes what can be loaded in full or not at all. */
  lemma CutCommand(c: Command, steps: nat, files: Files, id: string)
    requires steps <= |Steps(c)|
    ensures Load(TakeAll(Steps(c)[..steps], files), id)
         == if steps < |Steps(c)| then Load(files, id) else After(c, id, Load(files, id))
  {
    match c
    case Save(job) =>
      TmpIsNoJob(job.id, id);
      if id != job.id {
        PathsDiffer(id, job.id);
      }
      CutSave(job, steps, files);
    case Remove(gone) =>
      if id != gone {
        PathsDiffer(id, gone);
      }
      if steps == 1 {
        assert Steps(c)[..1] == [Unlink(JobPath(gone))];
        TakeOne(Unlink(JobPath(gone)), files);
      }
  }

  /** What was saved is loaded and what was removed is missing, and every other job stays as it was. */
  lemma SavedIsLoaded(job: SavedJob, files: Files, other: string)
    requires ValidId(job.id) && job.version == 1 && other != job.id
    ensures var saved, removed := TakeAll(Steps(Save(job)), files), TakeAll(Steps(Remove(job.id)), files);
      && Load(saved, job.id) == Found(job) && Load(removed, job.id) == Missing
      && Load(saved, other) == Load(removed, other) == Load(files, other)
  {
    var save, remove := Steps(Save(job)), Steps(Remove(job.id));
    assert save[..3] == save && remove[..1] == remove;
    CutCommand(Save(job), 3, files, job.id);
    CutCommand(Save(job), 3, files, other);
    CutCommand(Remove(job.id), 1, files, job.id);
    CutCommand(Remove(job.id), 1, files, other);
  }

  /** A job of another version is there and is refused, and so is every id that is not a valid one. */
  lemma OthersRefused(job: SavedJob, files: Files)
    ensures ValidId(job.id) && job.version != 1 ==> Load(TakeAll(Steps(Save(job)), files), job.id) == OtherVersion
    ensures !ValidId(job.id) ==> Load(files, job.id) == InvalidId
  {
    SaveSteps(job, files);
  }

  lemma CutSave(job: SavedJob, steps: nat, files: Files)
    requires steps <= 3
    ensures var tmp, after := TmpPath(job.id), TakeAll(Steps(Save(job))[..steps], files);
      after == (if steps == 0 then files else if steps == 1 then files[tmp := Torn]
                else if steps == 2 then files[tmp := Whole(job)] else (files - {tmp})[JobPath(job.id) := Whole(job)])
  {
    var all, tmp := Steps(Save(job)), TmpPath(job.id);
    if steps == 1 {
      assert all[..1] == [all[0]];
      TakeOne(all[0], files);
    } else if steps == 2 {
      assert all[..2][1..] == [all[1]];
      TakeOne(all[1], files[tmp := Torn]);
      assert files[tmp := Torn][tmp := Whole(job)] == files[tmp := Whole(job)];
    } else if steps == 3 {
      assert all[..3] == all;
      SaveSteps(job, files);
      assert files[tmp := Torn][tmp := Whole(job)] - {tmp} == files - {tmp};
    }
  }

  // ---- over any number of commands ----

  /** A command and the number of its steps that were taken. */
  datatype Attempt = Attempt(command: Command, steps: nat) {
    predicate Finished() { steps == |Steps(command)| }
  }

  predicate AreAttempts(attempts: seq<Attempt>) {
    forall a | a in attempts :: a.steps <= |Steps(a.command)|
  }

  function Replayed(attempts: seq<Attempt>, files: Files): Files
    requires AreAttempts(attempts)
  {
    if attempts == [] then files
    else
      var first := attempts[0];
      assert first in attempts;
      Replayed(attempts[1..], TakeAll(Steps(first.command)[..first.steps], files))
  }

  /** The outcome if saving and removing were single steps and a cut command had never begun. */
  function Expected(attempts: seq<Attempt>, id: string, before: Loaded): Loaded {
    if attempts == [] then before
    else
      Expected(attempts[1..], id, if attempts[0].Finished() then After(attempts[0].command, id, before) else before)
  }

  /** Through any history of crashes, loading a job gives what the last finished command left. */
  lemma {:induction false} CrashesAreAtomic(attempts: seq<Attempt>, files: Files, id: string)
    requires AreAttempts(attempts)
    ensures Load(Replayed(attempts, files), id) == Expected(attempts, id, Load(files, id))
  {
    if attempts != [] {
      var first := attempts[0];
      assert first in attempts;
      CutCommand(first.command, first.steps, files, id);
      CrashesAreAtomic(attempts[1..], TakeAll(Steps(first.command)[..first.steps], files), id);
    }
  }

  predicate OurVersion(attempts: seq<Attempt>) {
    forall a | a in attempts && a.command.Save? :: a.command.job.version == JOB_VERSION
  }

  lemma {:induction false} ExpectedLoads(attempts: seq<Attempt>, id: string, before: Loaded)
    requires OurVersion(attempts) && ValidId(id) && (before.Missing? || before.Found?)
    ensures Expected(attempts, id, before).Missing? || Expected(attempts, id, before).Found?
  {
    if attempts != [] {
      assert attempts[0] in attempts;
      ExpectedLoads(attempts[1..], id, if attempts[0].Finished() then After(attempts[0].command, id, before) else before);
    }
  }

  /** So a half-written job is never read: a job that loads, or is missing, does so after any history. */
  lemma NeverTorn(attempts: seq<Attempt>, files: Files, id: string)
    requires AreAttempts(attempts) && OurVersion(attempts) && ValidId(id)
    requires Load(files, id).Missing? || Load(files, id).Found?
    ensures Load(Replayed(attempts, files), id).Missing? || Load(Replayed(attempts, files), id).Found?
  {
    CrashesAreAtomic(attempts, files, id);
    ExpectedLoads(attempts, id, Load(files, id));
  }
}
