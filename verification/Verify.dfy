/** The verify verdict: matching, expiry and DNSSEC folded into one exit code (src/report.rs, src/cert.rs, src/main.rs). */
module Verify {
  import Hex
  import Machine
  import Safety
  import opened Text
  import opened Publish
  import opened Mx

  // ---- does a record match the presented chain? ----

  /** The digests, about which nothing is assumed. */
  datatype Digests = Digests(sha256: seq<Byte> -> seq<Byte>, sha512: seq<Byte> -> seq<Byte>)

  /** One presented certificate; the key is missing if the certificate cannot be parsed. */
  datatype Presented = Presented(der: seq<Byte>, spki: Option<seq<Byte>>)

  datatype Certificate = Certificate(leaf: Presented, chain: seq<Presented>, notBefore: int, notAfter: int)

  function AssociationData(c: Presented, selector: Byte, matching: Byte, d: Digests): Option<string> {
    var data := if selector == 0 then Some(c.der) else if selector == 1 then c.spki else None;
    match data
    case None => None
    case Some(bytes) =>
      if matching == 0 then Some(Hex.Encode(bytes))
      else if matching == 1 then Some(Hex.Encode(d.sha256(bytes)))
      else if matching == 2 then Some(Hex.Encode(d.sha512(bytes)))
      else None
  }

  /** `spki_sha256_hex`: the hash that publish, reload and prune go by. */
  function LiveHash(c: Certificate, d: Digests): Option<string> {
    AssociationData(c.leaf, 1, 1, d)
  }

  function Candidates(c: Certificate, usage: Byte): seq<Presented> {
    if usage == 1 || usage == 3 then [c.leaf] else [c.leaf] + c.chain
  }

  predicate MatchesOne(c: Presented, r: DaneTlsa, d: Digests) {
    var data := AssociationData(c, r.selector, r.matching, d);
    data.Some? && EqIgnoreCase(data.value, r.certificate)
  }

  predicate Comparable(c: Certificate, r: DaneTlsa, d: Digests) {
    r.usage <= 3 && forall x | x in Candidates(c, r.usage) :: AssociationData(x, r.selector, r.matching, d).Some?
  }

  /** What a record says about the chain: not comparable, or whether some candidate matches it. */
  function Matched(c: Certificate, r: DaneTlsa, d: Digests): Option<bool> {
    if Comparable(c, r, d) then Some(exists x :: x in Candidates(c, r.usage) && MatchesOne(x, r, d)) else None
  }

  /** What the first so many candidates come to. */
  ghost predicate Scanned(candidates: seq<Presented>, r: DaneTlsa, d: Digests, n: nat, matched: bool) {
    && n <= |candidates|
    && (forall k | 0 <= k < n :: AssociationData(candidates[k], r.selector, r.matching, d).Some?)
    && (matched <==> exists k :: 0 <= k < n && MatchesOne(candidates[k], r, d))
  }

  lemma ScanOne(candidates: seq<Presented>, r: DaneTlsa, d: Digests, n: nat, matched: bool, data: string)
    requires Scanned(candidates, r, d, n, matched) && n < |candidates|
    requires AssociationData(candidates[n], r.selector, r.matching, d) == Some(data)
    ensures Scanned(candidates, r, d, n + 1, matched || EqIgnoreCase(data, r.certificate))
  {
    assert EqIgnoreCase(data, r.certificate) == MatchesOne(candidates[n], r, d);
  }

  lemma ScannedAll(c: Certificate, r: DaneTlsa, d: Digests, matched: bool)
    requires r.usage <= 3 && Scanned(Candidates(c, r.usage), r, d, |Candidates(c, r.usage)|, matched)
    ensures Matched(c, r, d) == Some(matched)
  {
    var candidates := Candidates(c, r.usage);
    assert forall x | x in candidates :: exists k :: 0 <= k < |candidates| && candidates[k] == x;
  }

  method MatchesTlsa(c: Certificate, r: DaneTlsa, d: Digests) returns (m: Option<bool>)
    ensures m == Matched(c, r, d) && (r.usage > 3 ==> m == None)
  {
    if r.usage > 3 {
      return None;
    }
    var candidates := Candidates(c, r.usage);
    var matched := false;
    for i := 0 to |candidates|
      invariant Scanned(candidates, r, d, i, matched)
    {
      match AssociationData(candidates[i], r.selector, r.matching, d)
      case Some(data) =>
        ScanOne(candidates, r, d, i, matched, data);
        matched := matched || EqIgnoreCase(data, r.certificate);
      case None =>
        assert candidates[i] in candidates;
        return None;
    }
    ScannedAll(c, r, d, matched);
    m := Some(matched);
  }

  // ---- what that comes to, certificate by certificate ----

  /** The data of a record as bytes: the whole certificate or its key (section 2.1 of RFC 6698), as it is or hashed. */
  lemma MatchesData(x: Presented, r: DaneTlsa, d: Digests)
    ensures AssociationData(x, r.selector, r.matching, d).Some? <==>
      r.matching <= 2 && (r.selector == 0 || (r.selector == 1 && x.spki.Some?))
    ensures MatchesOne(x, r, d) <==> Hex.Decode(r.certificate).Some? && var data := Hex.Decode(r.certificate).value;
      || (r.selector == 0 && r.matching == 0 && data == x.der)
      || (r.selector == 0 && r.matching == 1 && data == d.sha256(x.der))
      || (r.selector == 0 && r.matching == 2 && data == d.sha512(x.der))
      || (r.selector == 1 && r.matching == 0 && x.spki == Some(data))
      || (r.selector == 1 && r.matching == 1 && x.spki.Some? && data == d.sha256(x.spki.value))
      || (r.selector == 1 && r.matching == 2 && x.spki.Some? && data == d.sha512(x.spki.value))
  {
    var source := if r.selector == 0 then Some(x.der) else x.spki;
    if source.Some? {
      Hex.StandsFor(source.value, r.certificate);
      Hex.StandsFor(d.sha256(source.value), r.certificate);
      Hex.StandsFor(d.sha512(source.value), r.certificate);
    }
  }

  /** An end-entity record speaks of the leaf and of nothing else in the chain. */
  lemma EndEntityMatched(c: Certificate, r: DaneTlsa, d: Digests)
    requires r.usage == 1 || r.usage == 3
    ensures Matched(c, r, d) ==
      if AssociationData(c.leaf, r.selector, r.matching, d).Some? then Some(MatchesOne(c.leaf, r, d)) else None
  {
    assert c.leaf in [c.leaf];
    assert Matched(c, r, d).Some? ==> c.leaf in Candidates(c, r.usage);
  }

  lemma TrustAnchors(c: Certificate, usage: Byte)
    requires usage == 0 || usage == 2
    ensures c.leaf in Candidates(c, usage) && forall x | x in Candidates(c, usage) :: x == c.leaf || x in c.chain
    ensures forall i | 0 <= i < |c.chain| :: c.chain[i] in Candidates(c, usage)
  {
    var all := [c.leaf] + c.chain;
    assert all[0] == c.leaf && forall i | 0 <= i < |c.chain| :: all[i + 1] == c.chain[i];
  }

  /** A trust-anchor record speaks of the leaf and of every certificate presented with it. */
  lemma TrustAnchorMatched(c: Certificate, r: DaneTlsa, d: Digests)
    requires r.usage == 0 || r.usage == 2
    ensures Matched(c, r, d) ==
      if && AssociationData(c.leaf, r.selector, r.matching, d).Some?
         && forall i | 0 <= i < |c.chain| :: AssociationData(c.chain[i], r.selector, r.matching, d).Some?
      then Some(MatchesOne(c.leaf, r, d) || exists i :: 0 <= i < |c.chain| && MatchesOne(c.chain[i], r, d))
      else None
  {
    TrustAnchors(c, r.usage);
    if x :| x in Candidates(c, r.usage) && MatchesOne(x, r, d) && x != c.leaf {
      var i :| 0 <= i < |c.chain| && c.chain[i] == x;
      assert MatchesOne(c.chain[i], r, d);
    }
    if i :| 0 <= i < |c.chain| && MatchesOne(c.chain[i], r, d) {
      assert c.chain[i] in Candidates(c, r.usage);
    }
  }

  // ---- the steps of the verdict ----

  datatype Status = Ok | Warning | Error | Critical | Unknown
  datatype Outcome = Outcome(status: Status, exit: nat)

  predicate AnyMatch(c: Certificate, dns: Rrset, d: Digests) {
    exists r :: r in dns && Matched(c, r, d) == Some(true)
  }

  function VerifyOutcome(live: Option<string>, dns: Rrset, matched: seq<Option<bool>>): Outcome {
    if live == None || dns == [] then Outcome(Unknown, 3)
    else if Some(true) in matched then Outcome(Ok, 0)
    else Outcome(Error, 2)
  }

  datatype Limits = Limits(warn: nat, critical: nat)

  /** `div_euclid` by the seconds of a day. */
  function DaysLeft(c: Certificate, now: int): int {
    (c.notAfter - now) / 86400
  }

  predicate NotYetValid(c: Certificate, now: int) {
    now < c.notBefore
  }

  function ApplyExpiry(o: Outcome, daysLeft: int, notYetValid: bool, limits: Limits): Outcome {
    if o.exit != 0 then o
    else if notYetValid || daysLeft <= limits.critical then Outcome(Critical, 2)
    else if daysLeft <= limits.warn then Outcome(Warning, 1)
    else o
  }

  function ApplyDnssec(o: Outcome, dnssec: Option<DnssecStatus>): Outcome {
    match dnssec
    case None => o
    case Some(Secure) => o
    case Some(Bogus) => if o.exit != 2 && o.exit != 3 then Outcome(Critical, 2) else o
    case Some(_) => if o.exit == 0 then Outcome(Warning, 1) else o
  }

  // ---- the verdict as a join ----

  datatype Checks = Checks(dns: Rrset, limits: Option<Limits>, tlsa: Option<DnssecStatus>, mx: Option<DnssecStatus>)

  function Worse(a: nat, b: nat): nat {
    if a < b then b else a
  }

  function ExpiryVerdict(c: Certificate, now: int, limits: Option<Limits>): nat {
    match limits
    case None => 0
    case Some(l) =>
      if now < c.notBefore || c.notAfter - now < 86400 * (l.critical + 1) then 2
      else if c.notAfter - now < 86400 * (l.warn + 1) then 1
      else 0
  }

  function DnssecVerdict(s: Option<DnssecStatus>): nat {
    match s
    case None => 0
    case Some(Secure) => 0
    case Some(Bogus) => 2
    case Some(_) => 1
  }

  /** The exit code with no order of steps in it: the worst of four independent verdicts. */
  function Joined(live: Option<Certificate>, checks: Checks, now: int, d: Digests): nat {
    if live == None || LiveHash(live.value, d) == None || checks.dns == [] then 3
    else
      Worse(if AnyMatch(live.value, checks.dns, d) then 0 else 2,
        Worse(ExpiryVerdict(live.value, now, checks.limits),
          Worse(DnssecVerdict(checks.tlsa), DnssecVerdict(checks.mx))))
  }

  lemma DaysByTheSecond(c: Certificate, now: int, n: nat)
    ensures DaysLeft(c, now) <= n <==> c.notAfter - now < 86400 * (n + 1)
  {
  }

  /** `verify`: a certificate that cannot be fetched or hashed ends it early. */
  method Verify(live: Option<Certificate>, checks: Checks, now: int, d: Digests) returns (outcome: Outcome)
    ensures outcome.exit == Joined(live, checks, now, d)
    ensures outcome.status == (match outcome.exit
      case 0 => Ok case 1 => Warning case 3 => Unknown
      case _ => if AnyMatch(live.value, checks.dns, d) then Critical else Error)
  {
    if live == None || LiveHash(live.value, d) == None {
      outcome := ApplyDnssec(VerifyOutcome(None, [], []), checks.mx);
      return;
    }
    var c := live.value;
    var matched: seq<Option<bool>> := [];
    for i := 0 to |checks.dns|
      invariant |matched| == i && forall k | 0 <= k < i :: matched[k] == Matched(c, checks.dns[k], d)
    {
      var m := MatchesTlsa(c, checks.dns[i], d);
      matched := matched + [m];
    }
    AnyMatchByIndex(c, checks.dns, matched, d);
    outcome := VerifyOutcome(LiveHash(c, d), checks.dns, matched);
    if checks.limits.Some? {
      var limits := checks.limits.value;
      DaysByTheSecond(c, now, limits.critical);
      DaysByTheSecond(c, now, limits.warn);
      outcome := ApplyExpiry(outcome, DaysLeft(c, now), NotYetValid(c, now), limits);
    }
    outcome := ApplyDnssec(outcome, checks.tlsa);
    outcome := ApplyDnssec(outcome, checks.mx);
  }

  lemma AnyMatchByIndex(c: Certificate, dns: Rrset, matched: seq<Option<bool>>, d: Digests)
    requires |matched| == |dns| && forall k | 0 <= k < |dns| :: matched[k] == Matched(c, dns[k], d)
    ensures Some(true) in matched <==> AnyMatch(c, dns, d)
  {
    if AnyMatch(c, dns, d) {
      var r :| r in dns && Matched(c, r, d) == Some(true);
      var k :| 0 <= k < |dns| && dns[k] == r;
      assert matched[k] == Some(true);
    }
  }

  // ---- what the verdict means ----

  /** Each exit code and when it is given, with DNSSEC not asked for or secure counting as fine. */
  lemma ExitMeans(c: Certificate, checks: Checks, now: int, d: Digests)
    requires c.leaf.spki.Some? && checks.dns != []
    ensures var exit, days := Joined(Some(c), checks, now, d), (c.notAfter - now) / 86400;
      && exit <= 2
      && (exit == 2 <==>
        || !AnyMatch(c, checks.dns, d)
        || checks.tlsa == Some(Bogus) || checks.mx == Some(Bogus)
        || (checks.limits.Some? && (now < c.notBefore || days <= checks.limits.value.critical)))
      && (exit == 0 <==>
        && AnyMatch(c, checks.dns, d)
        && (checks.tlsa == None || checks.tlsa == Some(Secure))
        && (checks.mx == None || checks.mx == Some(Secure))
        && (checks.limits.Some? ==>
          now >= c.notBefore && days > checks.limits.value.critical && days > checks.limits.value.warn))
  {
    if checks.limits.Some? {
      DaysByTheSecond(c, now, checks.limits.value.critical);
      DaysByTheSecond(c, now, checks.limits.value.warn);
    }
  }

  /** Nothing to compare is unknown, whatever else is wrong. */
  lemma UnknownMeans(live: Option<Certificate>, checks: Checks, now: int, d: Digests)
    ensures Joined(live, checks, now, d) == 3 <==> live == None || live.value.leaf.spki == None || checks.dns == []
  {
    if live.Some? && live.value.leaf.spki.Some? && checks.dns != [] {
      ExitMeans(live.value, checks, now, d);
    }
  }

  /** The two DNSSEC folds can be done in either order. */
  lemma FoldsCommute(o: Outcome, a: Option<DnssecStatus>, b: Option<DnssecStatus>)
    ensures ApplyDnssec(ApplyDnssec(o, a), b).exit == ApplyDnssec(ApplyDnssec(o, b), a).exit
  {
  }

  /** With everything else the same, the verdict never gets better once the certificate is valid. */
  lemma NeverImproves(live: Option<Certificate>, checks: Checks, now: int, later: int, d: Digests)
    requires now <= later && (live.Some? ==> live.value.notBefore <= now)
    ensures Joined(live, checks, now, d) <= Joined(live, checks, later, d)
  {
  }

  /** It does get better when the certificate becomes valid, and only then. */
  lemma ImprovesOnlyAtStart(c: Certificate, checks: Checks, now: int, later: int, d: Digests)
    requires now <= later && Joined(Some(c), checks, later, d) < Joined(Some(c), checks, now, d)
    ensures now < c.notBefore <= later && checks.limits.Some?
  {
  }

  /** A set that pins the live key is one that verify accepts: the hash verdict is OK. */
  lemma PinnedVerifies(c: Certificate, checks: Checks, now: int, d: Digests)
    requires LiveHash(c, d).Some? && Pins(checks.dns, LiveHash(c, d).value)
    ensures AnyMatch(c, checks.dns, d)
    ensures checks.limits == None && checks.tlsa == Some(Secure) && checks.mx == None ==>
      Joined(Some(c), checks, now, d) == 0
  {
    var r :| r in checks.dns && r.IsDaneEe() && r.HashMatches(LiveHash(c, d).value);
    var candidates := Candidates(c, r.usage);
    assert candidates == [c.leaf];
    assert c.leaf in candidates && MatchesOne(c.leaf, r, d);
    assert Comparable(c, r, d);
  }

  /** Among records of the kind that rollover publishes, verify accepts exactly those that pin the key. */
  lemma VerifiesOnlyPinned(c: Certificate, dns: Rrset, d: Digests)
    requires LiveHash(c, d).Some? && forall r | r in dns :: r.IsDaneEe()
    ensures AnyMatch(c, dns, d) <==> Pins(dns, LiveHash(c, d).value)
  {
    if AnyMatch(c, dns, d) {
      var r :| r in dns && Matched(c, r, d) == Some(true);
      assert r.IsDaneEe() && Candidates(c, r.usage) == [c.leaf];
      assert MatchesOne(c.leaf, r, d);
    }
    if Pins(dns, LiveHash(c, d).value) {
      PinnedVerifies(c, Checks(dns, None, None, None), 0, d);
    }
  }

  /**
   * The view theorem as a client sees it: at any moment of any run, a client that compares the
   * certificate in service with a copy it may still hold finds a match.
   */
  lemma ClientsAccept(s: Machine.State, es: seq<Machine.Event>, p: int, k: int, c: Certificate, d: Digests)
    requires Safety.Initial(s) && Machine.IsRun(s, es) && Safety.FromDisk(es)
    requires var t := Machine.After(s, es);
      p in t.live && Safety.InView(t.zone[p], k, t.now, t.window) && LiveHash(c, d) == Some(t.live[p])
    ensures AnyMatch(c, Machine.After(s, es).zone[p][k].rrset, d)
  {
    var t := Machine.After(s, es);
    Safety.ViewsPinLiveKeys(s, es);
    assert Safety.PinnedInView(t.zone[p], t.now, t.window, t.live[p]);
    PinnedVerifies(c, Checks(t.zone[p][k].rrset, None, None, None), 0, d);
  }

  // ---- several exchanges ----

  function Rank(exit: nat): nat {
    if exit == 2 then 3 else if exit == 1 then 2 else if exit == 3 then 1 else 0
  }

  /** `worst_verify_exit`: the last of those ranked highest, or 0 for none. */
  function WorstExit(exits: seq<nat>): nat {
    if exits == [] then 0
    else if |exits| == 1 then exits[0]
    else
      var worst, last := WorstExit(exits[..|exits| - 1]), exits[|exits| - 1];
      if Rank(worst) <= Rank(last) then last else worst
  }

  lemma {:induction false} WorstExitIsMost(exits: seq<nat>)
    requires exits != []
    ensures WorstExit(exits) in exits && forall e | e in exits :: Rank(e) <= Rank(WorstExit(exits))
  {
    var init, last := exits[..|exits| - 1], exits[|exits| - 1];
    assert exits == init + [last];
    if init != [] {
      WorstExitIsMost(init);
    }
  }

  /**
   * A confirmed CRITICAL always shows, a WARNING shows unless something is CRITICAL, and an UNKNOWN
   * only hides what is OK: whatever the order of the exchanges.
   */
  lemma UnknownMasksNothing(exits: seq<nat>)
    requires forall e | e in exits :: e <= 3
    ensures WorstExit(exits) == 2 <==> 2 in exits
    ensures WorstExit(exits) == 1 <==> 1 in exits && 2 !in exits
    ensures WorstExit(exits) == 3 <==> 3 in exits && 1 !in exits && 2 !in exits
  {
    if exits != [] {
      WorstExitIsMost(exits);
    }
  }
}
