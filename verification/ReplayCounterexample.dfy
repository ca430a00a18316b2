/** A run in which an old copy of a job, run with an unchanged certificate file, breaks a client. */
module ReplayCounterexample {
  import opened Text
  import opened Publish
  import opened Rollover
  import opened Machine
  import opened Safety
  import opened Replay
  import opened Timing

  const HTTPS: Port := 443

  /** One port presents key `0a`, pinned; the certificate file has moved on to `0b`. */
  function Start(): State {
    State([HTTPS], 0, 2, "0b", map[HTTPS := "0a"], map[HTTPS := [Version(0, [LiveDane("0a")])]], None, Idle, {})
  }

  function Pinning(now: nat, job: JobRecord, at: Pc, saved: set<JobRecord>, disk: JobRecord): State {
    Start().(now := now, zone := map[HTTPS := [Version(0, [LiveDane("0a")]), Version(0, [LiveDane("0a"), LiveDane("0b")])]],
             disk := Some(disk), exec := Running(job, at), saved := saved)
  }

  function Copy0(): JobRecord { NewJob([HTTPS], 1, "0b") }
  function Copy1(): JobRecord { Copy0().Published(0) }
  function Copy2(): JobRecord { Copy1().WaitingReload() }
  function Copy3(): JobRecord { Copy2().Reloaded(2) }
  function Copy4(): JobRecord { Copy3().ReadyToPrune() }

  lemma Hashes()
    ensures !EqIgnoreCase("0a", "0b") && Lower("0b") == "0b" && Lower("0a") == "0a"
    ensures !Pins([LiveDane("0a")], "0b") && Pins([LiveDane("0a")], "0a")
  {
    assert "0a"[1] == 'a' && Lower("0a")[1] == 'a' && Lower("0b")[1] == 'b';
    assert LiveDane("0a").HashMatches("0a");
  }

  function Both(): Rrset { [LiveDane("0a")] + [LiveDane("0b")] }

  /** The port's RRset before and after the publish, and the event that leads from one to the other. */
  lemma PublishOnce(a: State)
    requires a == Start().(disk := Some(Copy0()), exec := Running(Copy0(), Publishing(0)), saved := {Copy0()})
    ensures Enabled(PublishPort, a) && Apply(PublishPort, a) == Pinning(0, Copy0(), Publishing(1), {Copy0()}, Copy0())
  {
    Hashes();
    assert Both() == [LiveDane("0a"), LiveDane("0b")];
    assert [Version(0, [LiveDane("0a")])] + [Version(0, Both())] == [Version(0, [LiveDane("0a")]), Version(0, Both())];
    assert Current(a, HTTPS) == [LiveDane("0a")];
  }

  lemma PublishNext(s: State, es: seq<Event>) returns (fs: seq<Event>)
    requires s == Start() && es == []
    ensures Reaches(s, fs, Pinning(0, Copy1(), Checking, {Copy0(), Copy1()}, Copy1()))
  {
    ReachesNext(s, es, s, StartRollover(1));
    var a := Apply(StartRollover(1), s);
    PublishOnce(a);
    fs := es + [StartRollover(1)];
    ReachesNext(s, fs, a, PublishPort);
    fs := fs + [PublishPort];
    MarkNext(s, fs);
    fs := fs + [PortsPublished] + [Save];
  }

  lemma MarkNext(s: State, es: seq<Event>)
    requires Reaches(s, es, Pinning(0, Copy0(), Publishing(1), {Copy0()}, Copy0()))
    ensures Reaches(s, es + [PortsPublished] + [Save], Pinning(0, Copy1(), Checking, {Copy0(), Copy1()}, Copy1()))
  {
    var b := Pinning(0, Copy0(), Publishing(1), {Copy0()}, Copy0());
    ReachesNext(s, es, b, PortsPublished);
    ReachesNext(s, es + [PortsPublished], Apply(PortsPublished, b), Save);
  }

  lemma WaitNext(s: State, es: seq<Event>) returns (fs: seq<Event>)
    requires Reaches(s, es, Pinning(0, Copy1(), Checking, {Copy0(), Copy1()}, Copy1()))
    ensures Reaches(s, fs, Pinning(2, Copy2(), Reloading(false), {Copy0(), Copy1(), Copy2()}, Copy2()))
  {
    var a := Pinning(0, Copy1(), Checking, {Copy0(), Copy1()}, Copy1());
    ReachesNext(s, es, a, StartReloadSleep);
    var b := Pinning(0, Copy1(), Sleeping(BeforeReload, 0, 2), {Copy0(), Copy1()}, Copy1());
    assert Apply(StartReloadSleep, a) == b;
    ReachesNext(s, es + [StartReloadSleep], b, Tick(2));
    var c := Pinning(2, Copy1(), Sleeping(BeforeReload, 0, 2), {Copy0(), Copy1()}, Copy1());
    assert Apply(Tick(2), b) == c;
    fs := es + [StartReloadSleep] + [Tick(2)];
    ReachesNext(s, fs, c, Wake);
    var d := Pinning(2, Copy2(), Saving, {Copy0(), Copy1()}, Copy1());
    assert Apply(Wake, c) == d;
    ReachesNext(s, fs + [Wake], d, Save);
    fs := fs + [Wake] + [Save];
    assert {Copy0(), Copy1()} + {Copy2()} == {Copy0(), Copy1(), Copy2()};
  }

  /** The reload command succeeds and changes nothing. */
  lemma ReloadNext(s: State, es: seq<Event>) returns (fs: seq<Event>)
    requires Reaches(s, es, Pinning(2, Copy2(), Reloading(false), {Copy0(), Copy1(), Copy2()}, Copy2()))
    ensures Reaches(s, fs, Pinning(2, Copy3(), PruneWait, {Copy0(), Copy1(), Copy2(), Copy3()}, Copy3()))
  {
    var saved := {Copy0(), Copy1(), Copy2()};
    var a := Pinning(2, Copy2(), Reloading(false), saved, Copy2());
    ReachesNext(s, es, a, ReloadSwitch({}));
    var a' := Pinning(2, Copy2(), Reloading(true), saved, Copy2());
    assert Apply(ReloadSwitch({}), a) == a';
    fs := es + [ReloadSwitch({})];
    ReachesNext(s, fs, a', ReloadReturned);
    var b := Pinning(2, Copy3(), Saving, saved, Copy2());
    assert Apply(ReloadReturned, a') == b;
    ReachesNext(s, fs + [ReloadReturned], b, Save);
    fs := fs + [ReloadReturned] + [Save];
    assert saved + {Copy3()} == {Copy0(), Copy1(), Copy2(), Copy3()};
  }

  lemma PruneNext(s: State, es: seq<Event>) returns (fs: seq<Event>, t: State)
    requires Reaches(s, es, Pinning(2, Copy3(), PruneWait, {Copy0(), Copy1(), Copy2(), Copy3()}, Copy3()))
    ensures Reaches(s, fs, t) && t == Pinning(4, Copy4(), Pruning(0), {Copy0(), Copy1(), Copy2(), Copy3()} + {Copy4()}, Copy4())
  {
    var saved := {Copy0(), Copy1(), Copy2(), Copy3()};
    var a := Pinning(2, Copy3(), PruneWait, saved, Copy3());
    ReachesNext(s, es, a, StartPruneSleep);
    var b := Pinning(2, Copy3(), Sleeping(BeforePrune, 2, 4), saved, Copy3());
    assert Apply(StartPruneSleep, a) == b;
    ReachesNext(s, es + [StartPruneSleep], b, Tick(2));
    var c := Pinning(4, Copy3(), Sleeping(BeforePrune, 2, 4), saved, Copy3());
    assert Apply(Tick(2), b) == c;
    fs := es + [StartPruneSleep] + [Tick(2)];
    ReachesNext(s, fs, c, Wake);
    var d := Pinning(4, Copy4(), Saving, saved, Copy3());
    assert Apply(Wake, c) == d;
    ReachesNext(s, fs + [Wake], d, Save);
    fs := fs + [Wake] + [Save];
    t := Apply(Save, d);
  }

  lemma BreakNext(s: State, es: seq<Event>, t: State) returns (fs: seq<Event>)
    requires Sound(t) && Safe(t) && Reaches(s, es, t) && Enabled(WritePruned, t)
    requires IsHeld(t, Copy2(), ThisPort(t)) && !EqIgnoreCase(t.live[ThisPort(t)], Copy2().certificate)
    ensures IsRun(s, fs) && !Safe(After(s, fs))
  {
    var p, u := ThisPort(t), Apply(WritePruned, t);
    SoundStep(WritePruned, t);
    SafeStep(WritePruned, t);
    PrunedState(WritePruned, t);
    PrunePins(Current(t, p), t.live[p], Copy2().certificate);
    UnpinnedReplay(u, Copy2(), p);
    var v := ContinuationRuns(u, Copy2(), p);
    ReachesNext(s, es, t, WritePruned);
    fs := Continuation(u, Copy2(), p);
    ReachesConcat(s, es + [WritePruned], u, fs, v);
    fs := es + [WritePruned] + fs;
  }

  lemma ReadyToBreak(t: State)
    requires Sound(t)
    requires t == Pinning(4, Copy4(), Pruning(0), {Copy0(), Copy1(), Copy2(), Copy3()} + {Copy4()}, Copy4())
    ensures Enabled(WritePruned, t) && ThisPort(t) == HTTPS && !EqIgnoreCase(t.live[HTTPS], Copy2().certificate)
    ensures IsHeld(t, Copy2(), HTTPS) && MatchesFile(t, Copy2()) && Safe(t)
  {
    Hashes();
    var rrset := [LiveDane("0a"), LiveDane("0b")];
    assert Current(t, HTTPS) == rrset;
    NothingStale(rrset, "0a");
    assert rrset[1].IsStale("0a") && rrset[1] in rrset;
  }

  /**
   * Without the guard of `GuardedReplaysAreSafe` a replay can leave clients with copies that do not
   * pin the key in service: the reload did nothing, the prune dropped the new hash again, and an
   * old copy of the job then reloads once more. The certificate file is the same throughout.
   */
  lemma ReplayCanBreakClients()
    ensures Initial(Start())
    ensures exists es :: IsRun(Start(), es) && !Safe(After(Start(), es))
  {
    Hashes();
    var es := PublishNext(Start(), []);
    es := WaitNext(Start(), es);
    es := ReloadNext(Start(), es);
    var t;
    es, t := PruneNext(Start(), es);
    StartIsInitial();
    SoundRun(Start(), es);
    ReadyToBreak(t);
    es := BreakNext(Start(), es, t);
  }

  lemma StartIsInitial()
    ensures Initial(Start())
  {
    Hashes();
  }
}
