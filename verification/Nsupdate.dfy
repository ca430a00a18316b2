/**
 * The dynamic-update backend (src/nsupdate.rs), which can only add and delete single records:
 * it refines the RRset algebra, and says what an interruption between two updates leaves.
 */
module Nsupdate {
  import opened Text
  import opened Publish
  import Hex

  /** TLSA data as the server holds it. */
  datatype Wire = Wire(usage: Byte, selector: Byte, matching: Byte, data: seq<Byte>) {
    /** How a query shows it. */
    function Listed(): DaneTlsa {
      DaneTlsa(usage, selector, matching, Hex.Encode(data))
    }
  }

  function Listing(rrset: seq<Wire>): Rrset {
    if rrset == [] then [] else [rrset[0].Listed()] + Listing(rrset[1..])
  }

  /** A DNS RRset holds no record twice. */
  ghost predicate Distinct(rrset: Rrset) {
    forall i, j | 0 <= i < j < |rrset| :: rrset[i] != rrset[j]
  }

  function Elements(rrset: Rrset): set<DaneTlsa> {
    set r | r in rrset
  }

  function Dropped(rrset: seq<Wire>, record: Wire): seq<Wire> {
    if rrset == [] then []
    else (if rrset[0] == record then [] else [rrset[0]]) + Dropped(rrset[1..], record)
  }

  lemma {:induction false} ListingDropped(rrset: seq<Wire>, record: Wire)
    ensures Listing(Dropped(rrset, record)) == Without(Listing(rrset), record.Listed())
  {
    if rrset != [] {
      ListingDropped(rrset[1..], record);
      if rrset[0].Listed() == record.Listed() {
        Hex.EncodeInjective(rrset[0].data, record.data);
      }
      var rest := Dropped(rrset[1..], record);
      assert Dropped(rrset, record) == if rrset[0] == record then rest else [rrset[0]] + rest;
    }
  }

  lemma {:induction false} ListingConcat(a: seq<Wire>, b: seq<Wire>)
    ensures Listing(a + b) == Listing(a) + Listing(b)
  {
    if a == [] {
      assert a + b == b;
    } else {
      ListingConcat(a[1..], b);
      assert (a + b)[1..] == a[1..] + b;
      Associative([a[0].Listed()], Listing(a[1..]), Listing(b));
    }
  }

  lemma {:induction false} ListingMember(rrset: seq<Wire>, record: Wire)
    ensures record in rrset <==> record.Listed() in Listing(rrset)
  {
    if rrset != [] {
      ListingMember(rrset[1..], record);
      if rrset[0].Listed() == record.Listed() {
        Hex.EncodeInjective(rrset[0].data, record.data);
      }
      assert rrset == [rrset[0]] + rrset[1..];
    }
  }

  /** The record that an update for this hash names, unless the hash is not hexadecimal. */
  function UpdateRecord(hash: string): Option<Wire> {
    match Hex.Decode(hash)
    case None => None
    case Some(data) => Some(Wire(3, 1, 1, data))
  }

  lemma UpdateRecordListed(hash: string)
    requires UpdateRecord(hash).Some?
    ensures UpdateRecord(hash).value.Listed() == LiveDane(hash)
  {
    Hex.EncodeDecode(hash);
  }

  /** The name server's RRset for one owner name. */
  class Server {
    var rrset: seq<Wire>
    /** Whether an update may fail. */
    const faults: bool
    /** Every RRset that was ever authoritative, oldest first. */
    ghost var history: seq<Rrset>

    ghost predicate Valid()
      reads this
    {
      history != [] && history[|history| - 1] == Listing(rrset)
    }

    /** An update adds a record that is not there yet. A failed update may or may not have been applied. */
    method AddHash(hash: string) returns (ok: bool)
      requires Valid()
      modifies this
      ensures Valid()
      ensures history == old(history)
           || (history == old(history) + [Listing(rrset)] && Listing(rrset) == old(Listing(rrset)) + [LiveDane(hash)])
      ensures ok ==> LiveDane(hash) in Listing(rrset)
      ensures ok && LiveDane(hash) !in old(Listing(rrset)) ==> history != old(history)
      ensures !faults && UpdateRecord(hash).Some? ==> ok
    {
      ok := false;
      match UpdateRecord(hash)
      case None =>
      case Some(record) =>
        UpdateRecordListed(hash);
        ListingMember(rrset, record);
        var lost: bool, failed: bool := *, *;
        if !faults || !lost {
          if record !in rrset {
            ListingConcat(rrset, [record]);
            rrset := rrset + [record];
            history := history + [Listing(rrset)];
          }
          ok := !faults || !failed;
        }
    }

    /** An update deletes the record with this data; one that is not there is no error. */
    method DeleteHash(hash: string) returns (ok: bool)
      requires Valid()
      modifies this
      ensures Valid()
      ensures history == old(history)
           || (history == old(history) + [Listing(rrset)] && Listing(rrset) == Without(old(Listing(rrset)), LiveDane(hash)))
      ensures (ok ==> history != old(history)) && (!faults && UpdateRecord(hash).Some? ==> ok)
    {
      ok := false;
      match UpdateRecord(hash)
      case None =>
      case Some(record) =>
        UpdateRecordListed(hash);
        ListingDropped(rrset, record);
        var lost: bool, failed: bool := *, *;
        if !faults || !lost {
          rrset := Dropped(rrset, record);
          history := history + [Listing(rrset)];
          ok := !faults || !failed;
        }
    }

    /** A replace: the first 3 1 1 record is deleted, then the new one added. */
    method ReplaceHash(hash: string) returns (ok: bool, ghost i: nat)
      requires Valid() && Distinct(Listing(rrset)) && !Pins(Listing(rrset), hash) && HasDaneEe(Listing(rrset))
      modifies this
      ensures Valid() && old(history) <= history
      ensures ok ==> Elements(Listing(rrset)) == Elements(ReplaceFirst(old(Listing(rrset)), hash))
      ensures !faults && UpdateRecord(hash).Some? ==> ok
      ensures IsFirst(old(Listing(rrset)), i) && OnTheWay(old(Listing(rrset)), hash, i, history[|old(history)|..])
    {
      var ours := Listing(rrset);
      var first := FirstDaneEe(ours);
      i := first;
      ListedIsLower(rrset, i);
      ListedIsHex(rrset, i);
      ReplaceElements(ours, hash, i);
      WithoutMembers(ours, ours[i]);
      NotPinned(ours, hash);
      ok := DeleteHash(ours[first].certificate);
      if ok {
        ok := AddHash(hash);
      }
    }

    /**
     * `publish_tlsa`: on success the server holds the records of the RRset algebra's result. In
     * rollover mode an interruption leaves either the old RRset or the new one.
     */
    method PublishTlsa(hash: string, mode: Mode) returns (ok: bool)
      requires Valid() && Distinct(Listing(rrset))
      modifies this
      ensures Valid() && old(history) <= history
      ensures ok ==> Elements(Listing(rrset)) == Elements(AfterPublish(old(Listing(rrset)), hash, mode))
      ensures mode == Mode.Rollover ==> forall i | |old(history)| <= i < |history| ::
        history[i] == AfterPublish(old(Listing(rrset)), hash, Mode.Rollover)
      ensures mode == Mode.Replace && old(!Pins(Listing(rrset), hash) && HasDaneEe(Listing(rrset))) ==> exists i ::
        IsFirst(old(Listing(rrset)), i) && OnTheWay(old(Listing(rrset)), hash, i, history[|old(history)|..])
      ensures old(Pins(Listing(rrset), hash)) ==> ok && history == old(history)
      ensures !faults && UpdateRecord(hash).Some? ==> ok
    {
      var ours := Listing(rrset);
      var action := ActionFor(ours, hash, mode, false);
      ok := true;
      if action == Replaced {
        ghost var i;
        ok, i := ReplaceHash(hash);
      } else if action == Added {
        NotPinned(ours, hash);
        ok := AddHash(hash);
      }
    }

    /**
     * `prune_tlsa`: deletes one stale record after the other. However far it gets, the live hash
     * and the foreign records stay, and pruning again ends in the same RRset.
     */
    method PruneTlsa(live: string) returns (ok: bool)
      requires Valid()
      modifies this
      ensures Valid() && old(history) <= history
      ensures ok ==> Listing(rrset) == AfterPrune(old(Listing(rrset)), live)
      ensures (!faults ==> ok) && (StaleDane(old(Listing(rrset)), live) == [] ==> ok && history == old(history))
      ensures AllPartlyPruned(history, |old(history)|, old(Listing(rrset)), live)
    {
      ghost var found := Listing(rrset);
      var stale := StaleDane(Listing(rrset), live);
      AllStale(found, live);
      StaleIsLower(rrset, live);
      StaleIsHex(rrset, live);
      ok := true;
      for i := 0 to |stale|
        invariant stale == [] ==> history == old(history)
        invariant Valid() && old(history) <= history && ok && PartlyPruned(found, Listing(rrset), live)
        invariant StaleAmong(Listing(rrset), live, stale[i..])
        invariant AllPartlyPruned(history, |old(history)|, found, live)
      {
        OneLess(Listing(rrset), live, stale, i);
        DeletePartly(found, Listing(rrset), live, stale[i]);
        OneMore(history, |old(history)|, found, live, Without(Listing(rrset), stale[i]));
        ok := DeleteHash(stale[i].certificate);
        if !ok {
          return;
        }
      }
      NoneLeft(Listing(rrset), live, stale);
      FullyPruned(found, Listing(rrset), live);
    }
  }

  /** The first 3 1 1 record is here. */
  ghost predicate IsFirst(ours: Rrset, i: nat) {
    i < |ours| && ours[i].IsDaneEe() && forall k | 0 <= k < i :: !ours[k].IsDaneEe()
  }

  /** What a replace writes, one after the other, as far as it gets: the RRset without that record, then with the new one. */
  ghost predicate OnTheWay(ours: Rrset, hash: string, i: nat, written: seq<Rrset>)
    requires i < |ours|
  {
    written <= [Without(ours, ours[i]), Without(ours, ours[i]) + [LiveDane(hash)]]
  }

  /** Some stale records are gone, nothing else. */
  ghost predicate PartlyPruned(found: Rrset, now: Rrset, live: string) {
    && AfterPrune(now, live) == AfterPrune(found, live)
    && Foreign(now) == Foreign(found)
    && (Pins(found, live) ==> Pins(now, live))
  }

  ghost predicate AllPartlyPruned(history: seq<Rrset>, from: nat, found: Rrset, live: string) {
    forall i | from <= i < |history| :: PartlyPruned(found, history[i], live)
  }

  lemma OneMore(history: seq<Rrset>, from: nat, found: Rrset, live: string, next: Rrset)
    requires AllPartlyPruned(history, from, found, live) && PartlyPruned(found, next, live)
    ensures AllPartlyPruned(history + [next], from, found, live)
  {
  }

  lemma DeletePartly(found: Rrset, now: Rrset, live: string, record: DaneTlsa)
    requires PartlyPruned(found, now, live) && record.IsStale(live)
    ensures PartlyPruned(found, Without(now, record), live)
  {
    DeleteStale(now, live, record);
  }

  lemma FullyPruned(found: Rrset, now: Rrset, live: string)
    requires PartlyPruned(found, now, live) && StaleDane(now, live) == []
    ensures now == AfterPrune(found, live)
  {
    NothingStale(now, live);
  }

  method FirstDaneEe(ours: Rrset) returns (i: nat)
    requires HasDaneEe(ours)
    ensures i < |ours| && ours[i].IsDaneEe() && forall k | 0 <= k < i :: !ours[k].IsDaneEe()
  {
    i := 0;
    while !ours[i].IsDaneEe()
      invariant i < |ours| && forall k | 0 <= k < i :: !ours[k].IsDaneEe()
      invariant exists k :: i <= k < |ours| && ours[k].IsDaneEe()
      decreases |ours| - i
    {
      i := i + 1;
    }
  }

  /** A listed 3 1 1 record is what an update for its hash names. */
  lemma {:induction false} ListedIsLower(rrset: seq<Wire>, i: nat)
    requires i < |Listing(rrset)| && Listing(rrset)[i].IsDaneEe()
    ensures LiveDane(Listing(rrset)[i].certificate) == Listing(rrset)[i]
  {
    if i > 0 {
      ListedIsLower(rrset[1..], i - 1);
    } else {
      Hex.DecodeEncode(rrset[0].data);
      Hex.EncodeDecode(Hex.Encode(rrset[0].data));
    }
  }

  lemma {:induction false} ListedIsHex(rrset: seq<Wire>, i: nat)
    requires i < |Listing(rrset)|
    ensures UpdateRecord(Listing(rrset)[i].certificate).Some?
  {
    if i > 0 {
      ListedIsHex(rrset[1..], i - 1);
    } else {
      Hex.DecodeEncode(rrset[0].data);
    }
  }

  lemma StaleIsHex(rrset: seq<Wire>, live: string)
    ensures forall i | 0 <= i < |StaleDane(Listing(rrset), live)| ::
      UpdateRecord(StaleDane(Listing(rrset), live)[i].certificate).Some?
  {
    var ours := Listing(rrset);
    PruneMembers(ours, live);
    forall r | r in StaleDane(ours, live) ensures UpdateRecord(r.certificate).Some? {
      var i :| 0 <= i < |ours| && ours[i] == r;
      ListedIsHex(rrset, i);
    }
  }

  lemma StaleIsLower(rrset: seq<Wire>, live: string)
    ensures forall i | 0 <= i < |StaleDane(Listing(rrset), live)| ::
      LiveDane(StaleDane(Listing(rrset), live)[i].certificate) == StaleDane(Listing(rrset), live)[i]
  {
    var ours := Listing(rrset);
    PruneMembers(ours, live);
    forall r | r in StaleDane(ours, live) ensures LiveDane(r.certificate) == r {
      var i :| 0 <= i < |ours| && ours[i] == r;
      ListedIsLower(rrset, i);
    }
  }

  lemma NotPinned(ours: Rrset, hash: string)
    requires !Pins(ours, hash)
    ensures LiveDane(hash) !in ours
  {
    if LiveDane(hash) in ours {
      LiveDanePins(ours, hash);
    }
  }

  /** Replacing the first 3 1 1 record is deleting it and adding the new one, up to order. */
  lemma ReplaceElements(ours: Rrset, hash: string, i: nat)
    requires Distinct(ours) && i < |ours| && ours[i].IsDaneEe() && forall k | 0 <= k < i :: !ours[k].IsDaneEe()
    ensures Elements(ReplaceFirst(ours, hash)) == Elements(Without(ours, ours[i]) + [LiveDane(hash)])
  {
    ReplaceFirstAt(ours, hash, i);
    WithoutMembers(ours, ours[i]);
    var a, b := ReplaceFirst(ours, hash), Without(ours, ours[i]) + [LiveDane(hash)];
    forall r ensures r in a <==> r in b {
      assert r in ours && r != ours[i] <==> r in ours[..i] || r in ours[i + 1..] by {
        assert ours == ours[..i] + [ours[i]] + ours[i + 1..];
      }
    }
  }

  /**
   * A replace that is cut off after its delete and then run again drops a second record whenever
   * there is one: it ends as an uninterrupted one would just when the deleted record was the only
   * 3 1 1 record.
   */
  lemma InterruptedReplace(ours: Rrset, hash: string, i: nat)
    requires Distinct(ours) && ActionFor(ours, hash, Replace, false) == Replaced
    requires IsFirst(ours, i)
    ensures Elements(AfterPublish(Without(ours, ours[i]), hash, Replace)) == Elements(AfterPublish(ours, hash, Replace))
       <==> forall k | 0 <= k < |ours| && ours[k].IsDaneEe() :: k == i
  {
    ReplaceAgain(ours, hash, i);
    OnlyOne(ours, i);
  }

  /** Two 3 1 1 records, a replace cut off between its updates and run again: the second one is gone too. */
  lemma SecondRecordLost()
    ensures var a, b, other := LiveDane("0a"), LiveDane("0b"), LiveDane("0c");
      && Elements(AfterPublish([a, b], "0c", Replace)) == {other, b}
      && Elements(AfterPublish(Without([a, b], a), "0c", Replace)) == {other}
      && other != b
  {
    var a, b, other := LiveDane("0a"), LiveDane("0b"), LiveDane("0c");
    assert a.certificate[1] == 'a' && b.certificate[1] == 'b' && other.certificate[1] == 'c' && Lower("0c")[1] == 'c';
    assert !a.HashMatches("0c") && !b.HashMatches("0c");
    assert [a, b][1..] == [b] && [b][1..] == [];
    assert Without([b], a) == [b] + [] && Without([a, b], a) == [] + Without([b], a);
    assert ReplaceFirst([a, b], "0c") == [other] + [b] && ReplaceFirst([b], "0c") == [other] + [];
    assert [a, b][0] == a && HasDaneEe([a, b]) && HasDaneEe([b]);
  }

  /** What running the replace again makes of the RRset that its delete left. */
  lemma ReplaceAgain(ours: Rrset, hash: string, i: nat)
    requires Distinct(ours) && ActionFor(ours, hash, Replace, false) == Replaced
    requires i < |ours| && ours[i].IsDaneEe() && forall k | 0 <= k < i :: !ours[k].IsDaneEe()
    ensures Elements(AfterPublish(Without(ours, ours[i]), hash, Replace)) == Elements(AfterPublish(ours, hash, Replace))
       <==> !HasDaneEe(Without(ours, ours[i]))
  {
    var left := Without(ours, ours[i]);
    WithoutMembers(ours, ours[i]);
    assert !Pins(left, hash);
    ReplaceElements(ours, hash, i);
    assert Elements(AfterPublish(ours, hash, Replace)) == Elements(left + [LiveDane(hash)]);
    if HasDaneEe(left) {
      WithoutDistinct(ours, ours[i]);
      var j := FirstIn(left, 0);
      SecondLost(ours, left, hash, i, j);
      assert left[j] in Elements(left + [LiveDane(hash)]) && left[j] !in Elements(ReplaceFirst(left, hash));
    }
  }

  lemma OnlyOne(ours: Rrset, i: nat)
    requires i < |ours| && Distinct(ours)
    ensures !HasDaneEe(Without(ours, ours[i])) <==> forall k | 0 <= k < |ours| && ours[k].IsDaneEe() :: k == i
  {
    WithoutMembers(ours, ours[i]);
    forall k | 0 <= k < |ours| && k != i ensures ours[k] in Without(ours, ours[i]) {
    }
    if HasDaneEe(Without(ours, ours[i])) {
      var r :| r in Without(ours, ours[i]) && r.IsDaneEe();
      var k :| 0 <= k < |ours| && ours[k] == r;
      assert k != i;
    }
  }

  lemma FirstIn(ours: Rrset, from: nat) returns (j: nat)
    requires from <= |ours| && exists k :: from <= k < |ours| && ours[k].IsDaneEe()
    requires forall k | 0 <= k < from :: !ours[k].IsDaneEe()
    ensures j < |ours| && ours[j].IsDaneEe() && forall k | 0 <= k < j :: !ours[k].IsDaneEe()
    decreases |ours| - from
  {
    if ours[from].IsDaneEe() {
      j := from;
    } else {
      j := FirstIn(ours, from + 1);
    }
  }

  lemma {:induction false} WithoutDistinct(ours: Rrset, record: DaneTlsa)
    requires Distinct(ours)
    ensures Distinct(Without(ours, record))
  {
    if ours != [] {
      WithoutDistinct(ours[1..], record);
      WithoutMembers(ours[1..], record);
      assert ours[0] !in ours[1..];
    }
  }

  lemma SecondLost(ours: Rrset, left: Rrset, hash: string, i: nat, j: nat)
    requires Distinct(ours) && !Pins(ours, hash) && i < |ours| && left == Without(ours, ours[i]) && Distinct(left)
    requires j < |left| && left[j].IsDaneEe() && forall k | 0 <= k < j :: !left[k].IsDaneEe()
    ensures left[j] in left + [LiveDane(hash)] && left[j] !in ReplaceFirst(left, hash)
    ensures exists k :: 0 <= k < |ours| && k != i && ours[k] == left[j]
  {
    WithoutMembers(ours, ours[i]);
    ReplaceElements(left, hash, j);
    WithoutMembers(left, left[j]);
    NotPinned(ours, hash);
    assert left[j] in ours;
    assert left[j] !in Elements(Without(left, left[j]) + [LiveDane(hash)]);
    assert left[j] !in Elements(ReplaceFirst(left, hash));
  }
}
