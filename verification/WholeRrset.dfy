/**
 * The Route 53 backend (src/route53.rs), which reads an RRset as text and writes it back whole: it is
 * the RRset algebra itself, in one write or none.
 */
module WholeRrset {
  import opened Text
  import opened Publish
  import opened Rdata
  import opened Xml
  import opened ChangeDocument

  predicate AllData(records: Rrset) {
    forall r | r in records :: IsData(r.certificate)
  }

  lemma {:induction false} ListedIsData(values: seq<string>)
    ensures AllData(Listed(values))
  {
    if values != [] {
      ListedIsData(values[1..]);
      if ParseTlsaRdata(values[0]).Some? {
        ParsedIsData(values[0]);
      }
    }
  }

  lemma {:induction false} ReplaceFirstMembers(ours: Rrset, hash: string)
    ensures forall r | r in ReplaceFirst(ours, hash) :: r in ours || r == LiveDane(hash)
  {
    if ours != [] {
      ReplaceFirstMembers(ours[1..], hash);
      assert ours == [ours[0]] + ours[1..];
    }
  }

  lemma PublishIsData(ours: Rrset, hash: string, action: Action)
    requires AllData(ours) && hash != "" && NoSpace(hash)
    ensures AllData(AfterAction(ours, hash, action))
  {
    LowerIdempotent(hash);
    assert forall i | 0 <= i < |hash| :: IsSpace(Lower(hash)[i]) == IsSpace(hash[i]);
    ReplaceFirstMembers(ours, hash);
  }

  lemma PruneIsData(ours: Rrset, live: string)
    requires AllData(ours)
    ensures AllData(AfterPrune(ours, live))
  {
    PruneMembers(ours, live);
  }

  /** The hosted zone's RRset for one owner name, as the texts of its values. No value, no RRset. */
  class HostedZone {
    var values: seq<string>
    /** Whether a request may fail. */
    const faults: bool
    /** How often the RRset has been written. */
    ghost var writes: nat

    /** What the client makes of the values. */
    function Contents(): Rrset
      reads this
    {
      Listed(values)
    }

    /** An RRset cannot be written empty. A request may fail whether or not it took effect. */
    method Upsert(records: Rrset) returns (ok: bool)
      requires records != [] && AllData(records)
      modifies this
      ensures if writes == old(writes) then values == old(values) else writes == old(writes) + 1 && Contents() == records
      ensures (ok ==> writes == old(writes) + 1) && (!faults ==> ok)
    {
      ListedFormatted(records);
      var failed: bool, applied: bool := *, *;
      ok := !faults || !failed;
      if ok || applied {
        values := Formatted(records);
        writes := writes + 1;
      }
    }

    /** A delete has to name the RRset as it is. */
    method Delete(records: Rrset) returns (ok: bool)
      requires records == Contents()
      modifies this
      ensures if writes == old(writes) then values == old(values) else writes == old(writes) + 1 && Contents() == []
      ensures (ok ==> writes == old(writes) + 1) && (!faults ==> ok)
    {
      var failed: bool, applied: bool := *, *;
      ok := !faults || !failed;
      if ok || applied {
        values := [];
        writes := writes + 1;
      }
    }

    /** `publish_tlsa`: the old RRset or the new one, and on success the new one. */
    method PublishTlsa(hash: string, mode: Mode, dryrun: bool) returns (ok: bool, action: Action)
      requires hash != "" && NoSpace(hash)
      modifies this
      ensures action == ActionFor(old(Contents()), hash, mode, dryrun)
      ensures writes == old(writes) ==> values == old(values)
      ensures writes != old(writes) ==>
        writes == old(writes) + 1 && !dryrun && Contents() == AfterPublish(old(Contents()), hash, mode)
      ensures ok && !dryrun ==> Contents() == AfterPublish(old(Contents()), hash, mode)
      ensures ok && !dryrun ==> Pins(Contents(), hash)
      ensures (!faults ==> ok) && (old(Pins(Contents(), hash)) || dryrun ==> ok && writes == old(writes))
    {
      var ours := Listed(values);
      action := ActionFor(ours, hash, mode, dryrun);
      ListedIsData(values);
      PublishIsData(ours, hash, action);
      PublishThenNothingToDo(ours, hash, mode, mode, false);
      ok := true;
      if action == Added || action == Replaced {
        var next := RrsetAfterPublish(ours, hash, action);
        NotEmptied(ours, hash, action);
        ok := Upsert(next);
      }
    }

    /** `prune_tlsa`: one write of what is left, or a delete if nothing is. */
    method PruneTlsa(live: string, dryrun: bool) returns (ok: bool, stale: Rrset)
      modifies this
      ensures stale == StaleDane(old(Contents()), live)
      ensures writes == old(writes) ==> values == old(values)
      ensures writes != old(writes) ==>
        writes == old(writes) + 1 && !dryrun && stale != [] && Contents() == AfterPrune(old(Contents()), live)
      ensures ok && !dryrun ==> Contents() == AfterPrune(old(Contents()), live)
      ensures (!faults ==> ok) && (stale == [] || dryrun ==> ok && writes == old(writes))
    {
      var ours := Listed(values);
      stale := StaleDane(ours, live);
      ok := true;
      ListedIsData(values);
      PruneIsData(ours, live);
      NothingStale(ours, live);
      if stale != [] && !dryrun {
        var next := AfterPrune(ours, live);
        if next == [] {
          ok := Delete(ours);
        } else {
          ok := Upsert(next);
        }
      }
    }
  }

  lemma NotEmptied(ours: Rrset, hash: string, action: Action)
    requires action == Added || action == Replaced
    ensures AfterAction(ours, hash, action) != []
  {
    if action == Replaced {
      ReplaceFirstPins(ours, hash);
    }
  }
}
