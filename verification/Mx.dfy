/** MX exchanges and the DNSSEC verdict of an answer (src/dns.rs). */
module Mx {
  import opened Text

  datatype MxRecord = MxRecord(preference: nat, name: string)
  datatype MxHost = MxHost(preference: nat, host: string)

  /** The name up to letter case: hosts with one key are one host. */
  function Key(h: MxHost): string {
    Lower(h.host)
  }

  /** What is known of a key after these records: the least preference, the first spelling. */
  function Known(records: seq<MxRecord>, key: string): Option<MxHost> {
    if records == [] then None
    else
      var last, earlier := records[|records| - 1], Known(records[..|records| - 1], key);
      var host := TrimDots(last.name);
      if host == "" || Lower(host) != key then earlier else Some(Merged(earlier, last))
  }

  function Merged(earlier: Option<MxHost>, r: MxRecord): MxHost {
    match earlier
    case None => MxHost(r.preference, TrimDots(r.name))
    case Some(h) => if r.preference < h.preference then h.(preference := r.preference) else h
  }

  predicate Names(r: MxRecord, key: string) {
    TrimDots(r.name) != "" && Lower(TrimDots(r.name)) == key
  }

  /** A key is known exactly if a record names it, with the least of their preferences. */
  lemma {:induction false} KnownIsLeast(records: seq<MxRecord>, key: string)
    ensures Known(records, key).Some? <==> exists r :: r in records && Names(r, key)
    ensures Known(records, key).Some? ==>
      var h := Known(records, key).value;
      && h.host != "" && Key(h) == key
      && (exists r :: r in records && Names(r, key) && r.preference == h.preference)
      && (exists r :: r in records && Names(r, key) && TrimDots(r.name) == h.host)
      && (forall r | r in records && Names(r, key) :: h.preference <= r.preference)
  {
    if records != [] {
      var n := |records| - 1;
      KnownIsLeast(records[..n], key);
      assert records == records[..n] + [records[n]];
      assert records[n] in records && forall r | r in records[..n] :: r in records;
      assert Names(records[n], key) || !Names(records[n], key);
    }
  }

  predicate FirstNaming(records: seq<MxRecord>, key: string, i: nat) {
    i < |records| && Names(records[i], key) && forall j | 0 <= j < i :: !Names(records[j], key)
  }

  lemma {:induction false} NeverNamed(records: seq<MxRecord>, key: string)
    requires forall i | 0 <= i < |records| :: !Names(records[i], key)
    ensures Known(records, key) == None
  {
    if records != [] {
      NeverNamed(records[..|records| - 1], key);
    }
  }

  /** The spelling is that of the first record that names the key. */
  lemma {:induction false} KnownSpelling(records: seq<MxRecord>, key: string, i: nat)
    requires FirstNaming(records, key, i)
    ensures Known(records, key).Some? && Known(records, key).value.host == TrimDots(records[i].name)
  {
    var earlier := records[..|records| - 1];
    if i < |earlier| {
      KnownSpelling(earlier, key, i);
    } else {
      NeverNamed(earlier, key);
    }
  }

  // ---- collecting ----

  predicate Unique(hosts: seq<MxHost>) {
    forall i, j | 0 <= i < j < |hosts| :: Key(hosts[i]) != Key(hosts[j])
  }

  predicate AllKnown(records: seq<MxRecord>, hosts: seq<MxHost>) {
    forall h | h in hosts :: Known(records, Key(h)) == Some(h)
  }

  predicate HasKey(hosts: seq<MxHost>, key: string) {
    exists h :: h in hosts && Key(h) == key
  }

  ghost predicate AllListed(records: seq<MxRecord>, hosts: seq<MxHost>) {
    forall key :: Known(records, key).Some? ==> HasKey(hosts, key)
  }

  /** One entry for each key that the records name. */
  ghost predicate Collects(records: seq<MxRecord>, hosts: seq<MxHost>) {
    Unique(hosts) && AllKnown(records, hosts) && AllListed(records, hosts)
  }

  lemma KnownSnoc(records: seq<MxRecord>, r: MxRecord, key: string)
    ensures !Names(r, key) ==> Known(records + [r], key) == Known(records, key)
    ensures Names(r, key) ==> Known(records + [r], key) == Some(Merged(Known(records, key), r))
  {
    assert (records + [r])[..|records|] == records;
  }

  lemma CollectsSkip(records: seq<MxRecord>, hosts: seq<MxHost>, r: MxRecord)
    requires Collects(records, hosts) && TrimDots(r.name) == ""
    ensures Collects(records + [r], hosts)
  {
    forall key
      ensures Known(records + [r], key) == Known(records, key)
    {
      KnownSnoc(records, r, key);
    }
  }

  lemma CollectsNew(records: seq<MxRecord>, hosts: seq<MxHost>, r: MxRecord)
    requires Collects(records, hosts) && TrimDots(r.name) != ""
    requires !HasKey(hosts, Lower(TrimDots(r.name)))
    ensures Collects(records + [r], hosts + [MxHost(r.preference, TrimDots(r.name))])
  {
    var h := MxHost(r.preference, TrimDots(r.name));
    KnownSnoc(records, r, Key(h));
    assert h in hosts + [h];
    forall x | x in hosts
      ensures Key(x) != Key(h) && Known(records + [r], Key(x)) == Some(x)
    {
      KnownSnoc(records, r, Key(x));
    }
    forall key | Known(records + [r], key).Some?
      ensures HasKey(hosts + [h], key)
    {
      KnownSnoc(records, r, key);
      if key != Key(h) {
        var x :| x in hosts && Key(x) == key;
        assert x in hosts + [h];
      }
    }
  }

  lemma CollectsAgain(records: seq<MxRecord>, hosts: seq<MxHost>, r: MxRecord, i: nat)
    requires Collects(records, hosts) && TrimDots(r.name) != ""
    requires i < |hosts| && Key(hosts[i]) == Lower(TrimDots(r.name))
    ensures var h := hosts[i];
      Collects(records + [r], hosts[i := if r.preference < h.preference then h.(preference := r.preference) else h])
  {
    var h := hosts[i];
    var lower := if r.preference < h.preference then h.(preference := r.preference) else h;
    var after := hosts[i := lower];
    assert h in hosts && Key(lower) == Key(h);
    assert forall k | 0 <= k < |hosts| :: Key(after[k]) == Key(hosts[k]);
    KnownSnoc(records, r, Key(h));
    forall x | x in after
      ensures Known(records + [r], Key(x)) == Some(x)
    {
      var k :| 0 <= k < |after| && after[k] == x;
      if k != i {
        assert hosts[k] in hosts;
        KnownSnoc(records, r, Key(x));
      }
    }
    forall key | Known(records + [r], key).Some?
      ensures HasKey(after, key)
    {
      KnownSnoc(records, r, key);
      assert HasKey(hosts, key);
      var x :| x in hosts && Key(x) == key;
      var k :| 0 <= k < |hosts| && hosts[k] == x;
      assert after[k] in after;
    }
  }

  // ---- order ----

  /** `cmp` on strings. */
  predicate TextBefore(a: string, b: string) {
    b != "" && (a == "" || a[0] < b[0] || (a[0] == b[0] && TextBefore(a[1..], b[1..])))
  }

  lemma {:induction false} TextTotal(a: string, b: string)
    ensures TextBefore(a, b) || TextBefore(b, a) || a == b
    ensures !(TextBefore(a, b) && TextBefore(b, a)) && !TextBefore(a, a)
    decreases |a|
  {
    if a != "" {
      TextTotal(a[1..], a[1..]);
      if b != "" && a[0] == b[0] {
        TextTotal(a[1..], b[1..]);
        assert a == [a[0]] + a[1..] && b == [b[0]] + b[1..];
      }
    }
  }

  lemma {:induction false} TextTransitive(a: string, b: string, c: string)
    requires TextBefore(a, b) && TextBefore(b, c)
    ensures TextBefore(a, c)
  {
    if a != "" && a[0] == b[0] == c[0] {
      TextTransitive(a[1..], b[1..], c[1..]);
    }
  }

  predicate HostBefore(a: MxHost, b: MxHost) {
    a.preference < b.preference || (a.preference == b.preference && TextBefore(Key(a), Key(b)))
  }

  predicate Leads(h: MxHost, hosts: seq<MxHost>) {
    forall x | x in hosts :: HostBefore(h, x)
  }

  /** Strictly by preference, then by lower-cased name. */
  predicate Ordered(hosts: seq<MxHost>) {
    hosts == [] || (Leads(hosts[0], hosts[1..]) && Ordered(hosts[1..]))
  }

  function Insert(h: MxHost, hosts: seq<MxHost>): seq<MxHost> {
    if hosts == [] || !HostBefore(hosts[0], h) then [h] + hosts else [hosts[0]] + Insert(h, hosts[1..])
  }

  /** `sort_by`, as a stable insertion sort. */
  function SortHosts(hosts: seq<MxHost>): seq<MxHost> {
    if hosts == [] then [] else Insert(hosts[0], SortHosts(hosts[1..]))
  }

  lemma {:induction false} InsertMembers(h: MxHost, hosts: seq<MxHost>)
    ensures forall x :: x in Insert(h, hosts) <==> x == h || x in hosts
    ensures |Insert(h, hosts)| == |hosts| + 1
  {
    if hosts != [] && HostBefore(hosts[0], h) {
      InsertMembers(h, hosts[1..]);
      assert hosts == [hosts[0]] + hosts[1..];
    }
  }

  lemma {:induction false} SortMembers(hosts: seq<MxHost>)
    ensures forall x :: x in SortHosts(hosts) <==> x in hosts
    ensures |SortHosts(hosts)| == |hosts|
  {
    if hosts != [] {
      SortMembers(hosts[1..]);
      InsertMembers(hosts[0], SortHosts(hosts[1..]));
      assert hosts == [hosts[0]] + hosts[1..];
    }
  }

  lemma {:induction false} InsertOrdered(h: MxHost, hosts: seq<MxHost>)
    requires Ordered(hosts) && forall x | x in hosts :: Key(x) != Key(h)
    ensures Ordered(Insert(h, hosts))
  {
    if hosts != [] {
      var first, rest := hosts[0], hosts[1..];
      assert first in hosts;
      if HostBefore(first, h) {
        InsertOrdered(h, rest);
        InsertMembers(h, rest);
      } else {
        TextTotal(Key(first), Key(h));
        forall x | x in hosts
          ensures HostBefore(h, x)
        {
          if x != first {
            assert x in rest && HostBefore(first, x);
            HostTransitive(h, first, x);
          }
        }
      }
    }
  }

  lemma HostTransitive(a: MxHost, b: MxHost, c: MxHost)
    requires HostBefore(a, b) && HostBefore(b, c)
    ensures HostBefore(a, c)
  {
    if a.preference == b.preference == c.preference {
      TextTransitive(Key(a), Key(b), Key(c));
    }
  }

  lemma {:induction false} SortOrdered(hosts: seq<MxHost>)
    requires Unique(hosts)
    ensures Ordered(SortHosts(hosts))
  {
    if hosts != [] {
      var rest := hosts[1..];
      assert forall i | 0 <= i < |rest| :: rest[i] == hosts[i + 1];
      SortOrdered(rest);
      SortMembers(rest);
      InsertOrdered(hosts[0], SortHosts(rest));
    }
  }

  lemma {:induction false} OrderedUnique(hosts: seq<MxHost>, i: nat, j: nat)
    requires Ordered(hosts) && i < j < |hosts|
    ensures HostBefore(hosts[i], hosts[j])
  {
    if i == 0 {
      assert hosts[j] in hosts[1..];
    } else {
      OrderedUnique(hosts[1..], i - 1, j - 1);
    }
  }

  lemma {:induction false} TextBeforeIs(a: string, b: string)
    requires TextBefore(a, b)
    ensures ComesBefore(a, b)
  {
    if a == "" {
      assert b[..0] == a;
    } else if a[0] < b[0] {
      assert a[..0] == b[..0] && a[0] < b[0];
    } else {
      TextBeforeIs(a[1..], b[1..]);
      assert a == [a[0]] + a[1..] && b == [b[0]] + b[1..];
      if LexLess(a[1..], b[1..]) {
        var i: nat :| i < |a[1..]| && i < |b[1..]| && a[1..][..i] == b[1..][..i] && a[1..][i] < b[1..][i];
        assert a[..i + 1] == [a[0]] + a[1..][..i] && b[..i + 1] == [b[0]] + b[1..][..i];
        assert a[i + 1] < b[i + 1];
      } else {
        assert b[..|a|] == [b[0]] + b[1..][..|a| - 1];
      }
    }
  }

  /** The best exchange first: by preference, and by lower-cased name where that is the same. */
  ghost predicate IsSorted(hosts: seq<MxHost>) {
    forall i, j | 0 <= i < j < |hosts| ::
      && hosts[i].preference <= hosts[j].preference
      && (hosts[i].preference == hosts[j].preference ==> ComesBefore(Lower(hosts[i].host), Lower(hosts[j].host)))
  }

  lemma OrderedIsSorted(hosts: seq<MxHost>)
    requires Ordered(hosts)
    ensures IsSorted(hosts)
  {
    forall i, j | 0 <= i < j < |hosts|
      ensures hosts[i].preference <= hosts[j].preference
      ensures hosts[i].preference == hosts[j].preference ==> ComesBefore(Lower(hosts[i].host), Lower(hosts[j].host))
    {
      OrderedUnique(hosts, i, j);
      if hosts[i].preference == hosts[j].preference {
        TextBeforeIs(Key(hosts[i]), Key(hosts[j]));
      }
    }
  }

  // ---- the result ----

  /** The exchanges in order, one for each key, with nothing missing. */
  ghost predicate IsNormal(records: seq<MxRecord>, hosts: seq<MxHost>) {
    Ordered(hosts) && Collects(records, hosts)
  }

  method IndexOf(hosts: seq<MxHost>, host: string) returns (i: nat)
    ensures i <= |hosts| && (i < |hosts| ==> EqIgnoreCase(hosts[i].host, host))
    ensures i == |hosts| ==> !HasKey(hosts, Lower(host))
  {
    i := 0;
    while i < |hosts| && !EqIgnoreCase(hosts[i].host, host)
      invariant i <= |hosts| && forall k | 0 <= k < i :: Key(hosts[k]) != Lower(host)
    {
      i := i + 1;
    }
  }

  method NormalizeMx(records: seq<MxRecord>) returns (hosts: seq<MxHost>)
    ensures IsNormal(records, hosts) && IsSorted(hosts)
    ensures forall i, j | 0 <= i < j < |hosts| :: Lower(hosts[i].host) != Lower(hosts[j].host)
    ensures forall h | h in hosts :: h.host != "" && IsLeast(records, h)
    ensures forall r | r in records && TrimDots(r.name) != "" :: exists h :: h in hosts && Lower(h.host) == Lower(TrimDots(r.name))
  {
    hosts := [];
    for n := 0 to |records|
      invariant Collects(records[..n], hosts)
    {
      var r := records[n];
      assert records[..n + 1] == records[..n] + [r];
      var host := TrimDots(r.name);
      if host == "" {
        CollectsSkip(records[..n], hosts, r);
        continue;
      }
      var i := IndexOf(hosts, host);
      if i < |hosts| {
        CollectsAgain(records[..n], hosts, r, i);
        if r.preference < hosts[i].preference {
          hosts := hosts[i := hosts[i].(preference := r.preference)];
        }
        continue;
      }
      CollectsNew(records[..n], hosts, r);
      hosts := hosts + [MxHost(r.preference, host)];
    }
    assert records[..|records|] == records;
    SortCollects(records, hosts);
    hosts := SortHosts(hosts);
    OrderedIsSorted(hosts);
    NormalMeans(records, hosts);
  }

  /** The preference is the least of those under this name. */
  ghost predicate IsLeast(records: seq<MxRecord>, h: MxHost) {
    && (exists r :: r in records && Lower(TrimDots(r.name)) == Lower(h.host) && r.preference == h.preference)
    && (forall r | r in records && Lower(TrimDots(r.name)) == Lower(h.host) :: h.preference <= r.preference)
  }

  lemma NormalMeans(records: seq<MxRecord>, hosts: seq<MxHost>)
    requires IsNormal(records, hosts)
    ensures forall h | h in hosts :: h.host != "" && IsLeast(records, h)
    ensures forall r | r in records && TrimDots(r.name) != "" :: exists h :: h in hosts && Lower(h.host) == Lower(TrimDots(r.name))
  {
    forall h | h in hosts ensures h.host != "" && IsLeast(records, h) {
      assert Known(records, Key(h)) == Some(h);
      KnownIsLeast(records, Key(h));
    }
    forall r | r in records && TrimDots(r.name) != ""
      ensures exists h :: h in hosts && Lower(h.host) == Lower(TrimDots(r.name))
    {
      var key := Lower(TrimDots(r.name));
      assert Names(r, key);
      KnownIsLeast(records, key);
      assert HasKey(hosts, key);
      var h :| h in hosts && Key(h) == key;
    }
  }

  lemma SortCollects(records: seq<MxRecord>, hosts: seq<MxHost>)
    requires Collects(records, hosts)
    ensures IsNormal(records, SortHosts(hosts))
  {
    var sorted := SortHosts(hosts);
    SortMembers(hosts);
    SortOrdered(hosts);
    forall i, j | 0 <= i < j < |sorted|
      ensures Key(sorted[i]) != Key(sorted[j])
    {
      OrderedUnique(sorted, i, j);
      assert sorted[i] in hosts && sorted[j] in hosts;
      Irreflexive(sorted[i]);
    }
    forall key | Known(records, key).Some?
      ensures HasKey(sorted, key)
    {
      assert HasKey(hosts, key);
    }
  }

  lemma Irreflexive(h: MxHost)
    ensures !HostBefore(h, h)
  {
    TextTotal(Key(h), Key(h));
  }

  // ---- one result for every order of the answer ----

  lemma SameEmptiness(a: seq<MxHost>, b: seq<MxHost>)
    requires forall h :: h in a <==> h in b
    ensures a == [] <==> b == []
  {
    if a != [] {
      assert a[0] in b;
    }
    if b != [] {
      assert b[0] in a;
    }
  }

  /** Lists in order with the same members are the same list. */
  lemma {:induction false} OrderedDetermined(a: seq<MxHost>, b: seq<MxHost>)
    requires Ordered(a) && Ordered(b) && forall h :: h in a <==> h in b
    ensures a == b
  {
    SameEmptiness(a, b);
    if a != [] {
      assert a[0] in b && b[0] in a;
      HeadsAgree(a, b);
      forall h
        ensures h in a[1..] <==> h in b[1..]
      {
        TailMember(a, h);
        TailMember(b, h);
      }
      OrderedDetermined(a[1..], b[1..]);
    }
  }

  lemma TailMember(hosts: seq<MxHost>, h: MxHost)
    requires hosts != [] && Ordered(hosts)
    ensures h in hosts[1..] <==> h in hosts && h != hosts[0]
  {
    Irreflexive(hosts[0]);
    assert hosts == [hosts[0]] + hosts[1..];
  }

  lemma HeadsAgree(a: seq<MxHost>, b: seq<MxHost>)
    requires a != [] && b != [] && Ordered(a) && Ordered(b) && a[0] in b && b[0] in a
    ensures a[0] == b[0]
  {
    if a[0] != b[0] {
      assert b[0] in a[1..] && a[0] in b[1..];
      HostTransitive(a[0], b[0], a[0]);
      Irreflexive(a[0]);
    }
  }

  function Lowered(hosts: seq<MxHost>): seq<MxHost> {
    if hosts == [] then [] else [hosts[0].(host := Key(hosts[0]))] + Lowered(hosts[1..])
  }

  lemma {:induction false} LoweredMembers(hosts: seq<MxHost>)
    ensures forall x :: x in Lowered(hosts) <==> exists h :: h in hosts && x == h.(host := Key(h))
  {
    if hosts != [] {
      LoweredMembers(hosts[1..]);
      assert hosts == [hosts[0]] + hosts[1..];
      assert hosts[0] in hosts;
    }
  }

  lemma {:induction false} LoweredOrdered(hosts: seq<MxHost>)
    requires Ordered(hosts)
    ensures Ordered(Lowered(hosts))
  {
    if hosts != [] {
      LoweredOrdered(hosts[1..]);
      LoweredMembers(hosts[1..]);
      forall x | x in Lowered(hosts[1..])
        ensures HostBefore(Lowered(hosts)[0], x)
      {
        var h :| h in hosts[1..] && x == h.(host := Key(h));
        LowerIdempotent(hosts[0].host);
        LowerIdempotent(h.host);
      }
    }
  }

  lemma LoweredAmong(records: seq<MxRecord>, others: seq<MxRecord>, a: seq<MxHost>, b: seq<MxHost>, h: MxHost)
    requires Collects(records, a) && Collects(others, b) && (forall r :: r in records <==> r in others) && h in a
    ensures exists x :: x in b && x.(host := Key(x)) == h.(host := Key(h))
  {
    KnownIsLeast(records, Key(h));
    KnownIsLeast(others, Key(h));
    var r :| r in records && Names(r, Key(h)) && r.preference == h.preference;
    var known := Known(others, Key(h)).value;
    var s :| s in others && Names(s, Key(h)) && s.preference == known.preference;
    assert known.preference == h.preference;
    assert HasKey(b, Key(h));
    var x :| x in b && Key(x) == Key(h);
    assert Known(others, Key(x)) == Some(x);
  }

  /** The order in which the answer lists the records matters only to the letter case. */
  lemma AnyOrder(records: seq<MxRecord>, others: seq<MxRecord>, a: seq<MxHost>, b: seq<MxHost>)
    requires IsNormal(records, a) && IsNormal(others, b) && forall r :: r in records <==> r in others
    ensures Lowered(a) == Lowered(b)
  {
    LoweredMembers(a);
    LoweredMembers(b);
    forall x
      ensures x in Lowered(a) <==> x in Lowered(b)
    {
      if x in Lowered(a) {
        var h :| h in a && x == h.(host := Key(h));
        LoweredAmong(records, others, a, b, h);
      }
      if x in Lowered(b) {
        var h :| h in b && x == h.(host := Key(h));
        LoweredAmong(others, records, b, a, h);
      }
    }
    LoweredOrdered(a);
    LoweredOrdered(b);
    OrderedDetermined(Lowered(a), Lowered(b));
  }

  /** The description leaves no choice. */
  lemma NormalDetermined(records: seq<MxRecord>, a: seq<MxHost>, b: seq<MxHost>)
    requires IsNormal(records, a) && IsNormal(records, b)
    ensures a == b
  {
    forall h
      ensures h in a <==> h in b
    {
      if h in a {
        NormalAmong(records, a, b, h);
      }
      if h in b {
        NormalAmong(records, b, a, h);
      }
    }
    OrderedDetermined(a, b);
  }

  lemma NormalAmong(records: seq<MxRecord>, a: seq<MxHost>, b: seq<MxHost>, h: MxHost)
    requires Collects(records, a) && Collects(records, b) && h in a
    ensures h in b
  {
    assert Known(records, Key(h)) == Some(h);
    assert HasKey(b, Key(h));
    var x :| x in b && Key(x) == Key(h);
  }

  // ---- the DNSSEC verdict of an answer ----

  datatype DnssecStatus = Secure | Insecure | Bogus | Indeterminate

  function Severity(s: DnssecStatus): nat {
    match s
    case Secure => 0
    case Insecure => 1
    case Indeterminate => 2
    case Bogus => 3
  }

  /** `worst_dnssec`: the last of the most severe. */
  function WorstDnssec(statuses: seq<DnssecStatus>): Option<DnssecStatus> {
    if statuses == [] then None
    else
      var last := statuses[|statuses| - 1];
      match WorstDnssec(statuses[..|statuses| - 1])
      case None => Some(last)
      case Some(worst) => Some(if Severity(worst) <= Severity(last) then last else worst)
  }

  lemma {:induction false} WorstIsMost(statuses: seq<DnssecStatus>)
    requires statuses != []
    ensures var worst := WorstDnssec(statuses);
      worst.Some? && worst.value in statuses && forall s | s in statuses :: Severity(s) <= Severity(worst.value)
  {
    var init, last := statuses[..|statuses| - 1], statuses[|statuses| - 1];
    assert statuses == init + [last];
    if init != [] {
      WorstIsMost(init);
    }
  }

  /** An answer counts as secure only if every record in it is, and one bogus record makes it bogus. */
  lemma WorstPoisons(statuses: seq<DnssecStatus>)
    requires statuses != []
    ensures WorstDnssec(statuses) == Some(Secure) <==> forall s | s in statuses :: s == Secure
    ensures WorstDnssec(statuses) == Some(Bogus) <==> Bogus in statuses
    ensures WorstDnssec(statuses) == Some(Indeterminate) <==> Indeterminate in statuses && Bogus !in statuses
  {
    WorstIsMost(statuses);
  }
}
