/** The TLSA RRset algebra behind publish, replace and prune (src/publish.rs). */
module Publish {
  import opened Text

  datatype DaneTlsa = DaneTlsa(usage: Byte, selector: Byte, matching: Byte, certificate: string) {
    /** DANE-EE, SPKI, SHA-256: the only parameters rollover and prune act on. */
    predicate IsDaneEe() {
      usage == 3 && selector == 1 && matching == 1
    }

    predicate HashMatches(live: string) {
      EqIgnoreCase(live, certificate)
    }

    predicate IsStale(live: string) {
      IsDaneEe() && !HashMatches(live)
    }
  }

  type Rrset = seq<DaneTlsa>

  datatype Mode = Rollover | Replace
  datatype Action = AlreadyPublished | Added | Replaced | WouldAdd | WouldReplace

  /** A client holding this RRset accepts a key with this SPKI hash. */
  predicate Pins(rrset: Rrset, hash: string) {
    exists r :: r in rrset && r.IsDaneEe() && r.HashMatches(hash)
  }

  predicate HasDaneEe(rrset: Rrset) {
    exists r :: r in rrset && r.IsDaneEe()
  }

  function LiveDane(hash: string): DaneTlsa {
    DaneTlsa(3, 1, 1, Lower(hash))
  }

  function ActionFor(ours: Rrset, hash: string, mode: Mode, dryrun: bool): Action {
    if Pins(ours, hash) then AlreadyPublished
    else if mode == Replace && HasDaneEe(ours) then
      if dryrun then WouldReplace else Replaced
    else if dryrun then WouldAdd else Added
  }

  function ReplaceFirst(ours: Rrset, hash: string): Rrset {
    if ours == [] then [LiveDane(hash)]
    else if ours[0].IsDaneEe() then [LiveDane(hash)] + ours[1..]
    else [ours[0]] + ReplaceFirst(ours[1..], hash)
  }

  function AfterAction(ours: Rrset, hash: string, action: Action): Rrset {
    match action
    case Added => ours + [LiveDane(hash)]
    case Replaced => ReplaceFirst(ours, hash)
    case _ => ours
  }

  /** The RRset once a publish in this mode has gone through. */
  function AfterPublish(ours: Rrset, hash: string, mode: Mode): Rrset {
    AfterAction(ours, hash, ActionFor(ours, hash, mode, false))
  }

  function AfterPrune(ours: Rrset, live: string): Rrset {
    if ours == [] then []
    else (if ours[0].IsStale(live) then [] else [ours[0]]) + AfterPrune(ours[1..], live)
  }

  function StaleDane(ours: Rrset, live: string): Rrset {
    if ours == [] then []
    else (if ours[0].IsStale(live) then [ours[0]] else []) + StaleDane(ours[1..], live)
  }

  /** The records no publish or prune may touch. */
  function Foreign(ours: Rrset): Rrset {
    if ours == [] then []
    else (if ours[0].IsDaneEe() then [] else [ours[0]]) + Foreign(ours[1..])
  }

  /** What one delete of this record's data leaves. */
  function Without(ours: Rrset, record: DaneTlsa): Rrset {
    if ours == [] then []
    else (if ours[0] == record then [] else [ours[0]]) + Without(ours[1..], record)
  }

  // ---- the loop of rrset_after_publish ----

  method RrsetAfterPublish(ours: Rrset, hash: string, action: Action) returns (next: Rrset)
    ensures next == AfterAction(ours, hash, action)
  {
    match action
    case Added =>
      next := ours + [LiveDane(hash)];
    case Replaced =>
      var replaced := false;
      next := [];
      for i := 0 to |ours|
        invariant !replaced ==> next == ours[..i] && forall k | 0 <= k < i :: !ours[k].IsDaneEe()
        invariant replaced ==> next + ours[i..] == ReplaceFirst(ours, hash)
      {
        var record := ours[i];
        if !replaced && record.IsDaneEe() {
          ReplaceFirstAt(ours, hash, i);
          next := next + [LiveDane(hash)];
          replaced := true;
          assert ours[i + 1..] == ours[i..][1..];
        } else {
          assert ours[i..] == [record] + ours[i + 1..];
          assert replaced ==> next + [record] + ours[i + 1..] == next + ours[i..];
          next := next + [record];
        }
      }
      if !replaced {
        ReplaceFirstAt(ours, hash, |ours|);
        next := next + [LiveDane(hash)];
      }
    case _ =>
      next := ours;
  }

  lemma {:induction false} ReplaceFirstAt(ours: Rrset, hash: string, at: nat)
    requires at <= |ours| && forall k | 0 <= k < at :: !ours[k].IsDaneEe()
    requires at < |ours| ==> ours[at].IsDaneEe()
    ensures ReplaceFirst(ours, hash)
         == ours[..at] + [LiveDane(hash)] + (if at < |ours| then ours[at + 1..] else [])
  {
    if at > 0 {
      ReplaceFirstAt(ours[1..], hash, at - 1);
      assert ours[1..][..at - 1] == ours[1..at];
    }
  }

  // ---- membership ----

  lemma {:induction false} PruneMembers(ours: Rrset, live: string)
    ensures forall r :: r in AfterPrune(ours, live) <==> r in ours && !r.IsStale(live)
    ensures forall r :: r in StaleDane(ours, live) <==> r in ours && r.IsStale(live)
  {
    if ours != [] {
      PruneMembers(ours[1..], live);
      assert ours == [ours[0]] + ours[1..];
    }
  }

  lemma {:induction false} WithoutMembers(ours: Rrset, record: DaneTlsa)
    ensures forall r :: r in Without(ours, record) <==> r in ours && r != record
  {
    if ours != [] {
      WithoutMembers(ours[1..], record);
      assert ours == [ours[0]] + ours[1..];
    }
  }

  lemma {:induction false} WithoutAbsent(ours: Rrset, record: DaneTlsa)
    requires record !in ours
    ensures Without(ours, record) == ours
  {
    if ours != [] {
      WithoutAbsent(ours[1..], record);
      assert ours == [ours[0]] + ours[1..];
    }
  }

  lemma {:induction false} ReplaceFirstPins(ours: Rrset, hash: string)
    ensures LiveDane(hash) in ReplaceFirst(ours, hash)
  {
    if ours != [] {
      ReplaceFirstPins(ours[1..], hash);
    }
  }

  lemma LiveDanePins(rrset: Rrset, hash: string)
    requires LiveDane(hash) in rrset
    ensures Pins(rrset, hash)
  {
    LowerIdempotent(hash);
    assert LiveDane(hash).HashMatches(hash);
  }

  // ---- what a publish and a prune do to the pinned hashes ----

  /** Publishing always leaves the hash pinned, and a publish decided after that has nothing to do. */
  lemma PublishThenNothingToDo(ours: Rrset, hash: string, mode: Mode, again: Mode, dryrun: bool)
    ensures Pins(AfterPublish(ours, hash, mode), hash)
    ensures ActionFor(AfterPublish(ours, hash, mode), hash, again, dryrun) == AlreadyPublished
    ensures AfterPublish(AfterPublish(ours, hash, mode), hash, again) == AfterPublish(ours, hash, mode)
  {
    if !Pins(ours, hash) {
      ReplaceFirstPins(ours, hash);
      LiveDanePins(AfterPublish(ours, hash, mode), hash);
    }
  }

  /** A rollover publish pins exactly one more hash. */
  lemma RolloverPublishPins(ours: Rrset, hash: string, other: string)
    ensures Pins(AfterPublish(ours, hash, Rollover), other)
       <==> Pins(ours, other) || EqIgnoreCase(hash, other)
  {
    var next := AfterPublish(ours, hash, Rollover);
    LowerIdempotent(hash);
    if Pins(ours, other) {
      var r :| r in ours && r.IsDaneEe() && r.HashMatches(other);
      assert r in next;
    }
    if EqIgnoreCase(hash, other) {
      PublishThenNothingToDo(ours, hash, Rollover, Rollover, false);
      var r :| r in next && r.IsDaneEe() && r.HashMatches(hash);
      assert r.HashMatches(other);
    }
  }

  /** A prune un-pins every hash but the live one, and keeps that one. */
  lemma PrunePins(ours: Rrset, live: string, hash: string)
    ensures Pins(AfterPrune(ours, live), hash) <==> Pins(ours, hash) && EqIgnoreCase(live, hash)
  {
    PruneMembers(ours, live);
    if Pins(ours, hash) && EqIgnoreCase(live, hash) {
      var r :| r in ours && r.IsDaneEe() && r.HashMatches(hash);
      assert r in AfterPrune(ours, live);
    }
  }

  /** Deleting one stale record never un-pins the live hash and leaves the prune's result alone. */
  lemma {:induction false} DeleteStale(ours: Rrset, live: string, record: DaneTlsa)
    requires record.IsStale(live)
    ensures AfterPrune(Without(ours, record), live) == AfterPrune(ours, live)
    ensures Foreign(Without(ours, record)) == Foreign(ours)
    ensures Pins(ours, live) ==> Pins(Without(ours, record), live)
  {
    if ours != [] {
      DeleteStale(ours[1..], live, record);
      var rest := Without(ours[1..], record);
      assert Without(ours, record) == if ours[0] == record then rest else [ours[0]] + rest;
    }
    WithoutMembers(ours, record);
    if Pins(ours, live) {
      var r :| r in ours && r.IsDaneEe() && r.HashMatches(live);
      assert r in Without(ours, record);
    }
  }

  lemma {:induction false} PruneKeeps(ours: Rrset, live: string)
    requires forall r | r in ours :: !r.IsStale(live)
    ensures AfterPrune(ours, live) == ours
  {
    if ours != [] {
      assert ours[0] in ours && forall r | r in ours[1..] :: r in ours;
      PruneKeeps(ours[1..], live);
      assert ours == [ours[0]] + ours[1..];
    }
  }

  lemma NothingStale(ours: Rrset, live: string)
    ensures StaleDane(ours, live) == [] <==> AfterPrune(ours, live) == ours
    ensures StaleDane(ours, live) == [] <==> forall r | r in ours :: !r.IsStale(live)
  {
    PruneMembers(ours, live);
    if StaleDane(ours, live) == [] {
      assert forall r | r in ours && r.IsStale(live) :: r in StaleDane(ours, live);
      PruneKeeps(ours, live);
    } else {
      var r := StaleDane(ours, live)[0];
      assert r in StaleDane(ours, live) && r !in AfterPrune(ours, live);
    }
  }

  // ---- deleting the stale records one by one ----

  /** The stale records still to delete are among these. */
  ghost predicate StaleAmong(ours: Rrset, live: string, records: Rrset) {
    forall r | r in ours && r.IsStale(live) :: r in records
  }

  lemma AllStale(ours: Rrset, live: string)
    ensures StaleAmong(ours, live, StaleDane(ours, live)[0..])
    ensures forall i | 0 <= i < |StaleDane(ours, live)| :: StaleDane(ours, live)[i].IsStale(live)
  {
    PruneMembers(ours, live);
    assert StaleDane(ours, live)[0..] == StaleDane(ours, live);
  }

  lemma OneLess(ours: Rrset, live: string, stale: Rrset, i: nat)
    requires i < |stale| && StaleAmong(ours, live, stale[i..])
    ensures StaleAmong(Without(ours, stale[i]), live, stale[i + 1..])
  {
    WithoutMembers(ours, stale[i]);
    assert stale[i..] == [stale[i]] + stale[i + 1..];
  }

  lemma NoneLeft(ours: Rrset, live: string, stale: Rrset)
    requires StaleAmong(ours, live, stale[|stale|..])
    ensures StaleDane(ours, live) == []
  {
    NothingStale(ours, live);
  }

  // ---- conservation ----

  /** Stale plus kept is the input reordered. */
  lemma {:induction false} PruneConserves(ours: Rrset, live: string)
    ensures multiset(StaleDane(ours, live)) + multiset(AfterPrune(ours, live)) == multiset(ours)
  {
    if ours != [] {
      PruneConserves(ours[1..], live);
      assert ours == [ours[0]] + ours[1..];
    }
  }

  /** The kept part holds every foreign record in order, and pruning it again changes nothing. */
  lemma {:induction false} PruneStable(ours: Rrset, live: string)
    ensures Foreign(AfterPrune(ours, live)) == Foreign(ours)
    ensures AfterPrune(AfterPrune(ours, live), live) == AfterPrune(ours, live)
    ensures StaleDane(AfterPrune(ours, live), live) == []
  {
    if ours != [] {
      PruneStable(ours[1..], live);
      var rest := AfterPrune(ours[1..], live);
      assert AfterPrune(ours, live) == if ours[0].IsStale(live) then rest else [ours[0]] + rest;
    }
  }

  lemma {:induction false} ForeignConcat(a: Rrset, b: Rrset)
    ensures Foreign(a + b) == Foreign(a) + Foreign(b)
  {
    if a == [] {
      assert a + b == b;
    } else {
      ForeignConcat(a[1..], b);
      assert (a + b)[1..] == a[1..] + b;
      var head: Rrset, ra, rb := if a[0].IsDaneEe() then [] else [a[0]], Foreign(a[1..]), Foreign(b);
      assert Foreign(a + b) == head + (ra + rb) == (head + ra) + rb;
    }
  }

  /** One command of a rollover history. */
  datatype Command = PublishHash(hash: string) | PruneTo(live: string)

  function Perform(rrset: Rrset, commands: seq<Command>): Rrset
    decreases commands
  {
    if commands == [] then rrset
    else
      var next := match commands[0]
        case PublishHash(h) => AfterPublish(rrset, h, Rollover)
        case PruneTo(l) => AfterPrune(rrset, l);
      Perform(next, commands[1..])
  }

  /** Records other than 3 1 1 survive every history of rollover publishes and prunes, in order. */
  lemma {:induction false} ForeignSurvive(rrset: Rrset, commands: seq<Command>)
    ensures Foreign(Perform(rrset, commands)) == Foreign(rrset)
    decreases commands
  {
    if commands != [] {
      match commands[0] {
        case PublishHash(h) =>
          ForeignConcat(rrset, [LiveDane(h)]);
          ForeignSurvive(AfterPublish(rrset, h, Rollover), commands[1..]);
        case PruneTo(l) =>
          PruneStable(rrset, l);
          ForeignSurvive(AfterPrune(rrset, l), commands[1..]);
      }
    }
  }
}
