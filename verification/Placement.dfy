/** Where a name goes: owner names, connect names and the zone of an MX exchange (src/tlsa.rs, src/publish.rs). */
module Placement {
  import opened Text
  import opened Rdata

  function HostPart(hostname: Option<string>): string {
    match hostname
    case None => ""
    case Some(host) => host
  }

  function OwnerName(port: nat, hostname: Option<string>): string {
    var host := HostPart(hostname);
    if host != "" then "_" + Decimal(port) + "._tcp." + host else "_" + Decimal(port) + "._tcp"
  }

  function Fqdn(zone: string, port: nat, hostname: Option<string>): string {
    OwnerName(port, hostname) + "." + TrimDots(zone) + "."
  }

  function ConnectHost(zone: string, hostname: Option<string>): string {
    var host := HostPart(hostname);
    if host != "" then host + "." + zone else zone
  }

  datatype HostTarget = HostTarget(zone: string, hostname: Option<string>) {
    function Connect(): string { ConnectHost(zone, hostname) }

    predicate InZone(other: string) { EqIgnoreCase(zone, TrimDots(other)) }
  }

  function FromLabel(zone: string, hostname: Option<string>): HostTarget {
    var host := Trim(HostPart(hostname));
    HostTarget(TrimDots(zone), if host == "" then None else Some(host))
  }

  /** `strip_suffix` */
  function StripSuffix(s: string, suffix: string): Option<string> {
    if |suffix| <= |s| && s[|s| - |suffix|..] == suffix then Some(s[..|s| - |suffix|]) else None
  }

  function FromMx(zone: string, mxHost: string): HostTarget {
    var zone, mx := TrimDots(zone), TrimDots(mxHost);
    if Lower(mx) == Lower(zone) then FromLabel(zone, None)
    else
      match StripSuffix(Lower(mx), "." + Lower(zone))
      case Some(rel) => if rel != "" then FromLabel(zone, Some(rel)) else FromLabel(mx, None)
      case None => FromLabel(mx, None)
  }

  /** `split_once` */
  function SplitOnce(s: string, c: char): Option<(string, string)> {
    if s == "" then None
    else if s[0] == c then Some(("", s[1..]))
    else
      match SplitOnce(s[1..], c)
      case None => None
      case Some((a, b)) => Some(([s[0]] + a, b))
  }

  /** `strip_prefix` */
  function StripPrefix(s: string, prefix: string): Option<string> {
    if |prefix| <= |s| && s[..|prefix|] == prefix then Some(s[|prefix|..]) else None
  }

  function PortFromOwner(name: string): Option<nat> {
    match StripPrefix(TrimDots(name), "_")
    case None => None
    case Some(rest) =>
      match SplitOnce(rest, '.')
      case None => None
      case Some((port, after)) =>
        if StripPrefix(after, "_tcp").Some? then ParseUnsigned(port, 65536) else None
  }

  function HostAfterService(head: string): Option<string> {
    match StripPrefix(head, "_")
    case None => None
    case Some(rest) =>
      match SplitOnce(rest, '.')
      case None => None
      case Some((_, after)) =>
        match StripPrefix(after, "_tcp")
        case None => None
        case Some(s) => match StripPrefix(s, ".") case Some(host) => Some(host) case None => Some("")
  }

  function OwnerHost(name: string, zone: string): Option<string> {
    var name, zone := TrimDots(name), TrimDots(zone);
    if |name| <= |zone| || !EqIgnoreCase(name[|name| - |zone|..], zone) then None
    else HostAfterService(TrimDots(name[..|name| - |zone|]))
  }

  // ---- trailing dots ----

  lemma {:induction false} TrimDotsAfter(a: string, b: string)
    requires a != "" && a[|a| - 1] != '.'
    ensures TrimDots(a + b) == a + TrimDots(b)
  {
    if b == "" {
      assert a + b == a && a + TrimDots(b) == a;
    } else if b[|b| - 1] == '.' {
      assert (a + b)[..|a + b| - 1] == a + b[..|b| - 1];
      TrimDotsAfter(a, b[..|b| - 1]);
    }
  }

  lemma TrimmedStays(s: string)
    ensures TrimDots(TrimDots(s)) == TrimDots(s)
  {
  }

  lemma TrimOneDot(s: string)
    ensures TrimDots(s + ".") == TrimDots(s)
  {
    assert (s + ".")[..|s|] == s;
  }

  lemma {:induction false} SplitOnceAt(a: string, c: char, b: string)
    requires c !in a
    ensures SplitOnce(a + ([c] + b), c) == Some((a, b))
  {
    if a == "" {
      assert a + ([c] + b) == [c] + b;
    } else {
      SplitOnceAt(a[1..], c, b);
      assert (a + ([c] + b))[1..] == a[1..] + ([c] + b) && (a + ([c] + b))[0] == a[0];
      assert a[0] in a && [a[0]] + a[1..] == a;
    }
  }

  lemma StripHead(prefix: string, s: string)
    ensures StripPrefix(prefix + s, prefix) == Some(s)
  {
    assert (prefix + s)[..|prefix|] == prefix && (prefix + s)[|prefix|..] == s;
  }

  // ---- owner names are read back ----

  /** The part of an owner name before its host. */
  function Service(port: nat): (r: string)
    ensures |r| >= 6 && r[|r| - 1] == 'p'
  {
    "_" + (Decimal(port) + "._tcp")
  }

  lemma ReadService(port: nat, tail: string)
    requires port < 65536
    ensures StripPrefix(Service(port) + tail, "_") == Some(Decimal(port) + ("." + ("_tcp" + tail)))
    ensures SplitOnce(Decimal(port) + ("." + ("_tcp" + tail)), '.') == Some((Decimal(port), "_tcp" + tail))
    ensures StripPrefix("_tcp" + tail, "_tcp") == Some(tail)
    ensures ParseUnsigned(Decimal(port), 65536) == Some(port)
  {
    ParseDecimal(port, 65536);
    DecimalHasNoDot(port);
    var rest := Decimal(port) + ("." + ("_tcp" + tail));
    assert Service(port) + tail == "_" + rest;
    StripHead("_", rest);
    SplitOnceAt(Decimal(port), '.', "_tcp" + tail);
    StripHead("_tcp", tail);
  }

  lemma DecimalHasNoDot(n: nat)
    ensures '.' !in Decimal(n)
  {
    NumberOfDecimal(n);
  }

  /** Host and zone as they follow the service. */
  function Labelled(hostname: Option<string>): string {
    var host := HostPart(hostname);
    if host != "" then "." + host else ""
  }

  lemma OwnerParts(port: nat, hostname: Option<string>)
    ensures OwnerName(port, hostname) == Service(port) + Labelled(hostname)
  {
    var host := HostPart(hostname);
    if host != "" {
      assert "_" + Decimal(port) + "._tcp." + host == Service(port) + ("." + host);
    } else {
      assert Service(port) + "" == Service(port);
    }
  }

  lemma Dotted(service: string, labels: string, zone: string)
    ensures service + labels + "." + zone + "." == (service + (labels + ("." + zone))) + "."
  {
  }

  lemma FqdnParts(zone: string, port: nat, hostname: Option<string>)
    ensures Fqdn(zone, port, hostname) == (Service(port) + (Labelled(hostname) + ("." + TrimDots(zone)))) + "."
  {
    OwnerParts(port, hostname);
    Dotted(Service(port), Labelled(hostname), TrimDots(zone));
  }

  /** Reading the port of an owner name gives the port that it was made for, for any zone and host. */
  lemma PortReadBack(zone: string, port: nat, hostname: Option<string>)
    requires port < 65536
    ensures PortFromOwner(Fqdn(zone, port, hostname)) == Some(port)
  {
    var tail := Labelled(hostname) + ("." + TrimDots(zone));
    FqdnParts(zone, port, hostname);
    TrimOneDot(Service(port) + tail);
    TrimDotsAfter(Service(port), tail);
    ReadService(port, TrimDots(tail));
  }

  /** A name is read as an owner of this port exactly if it has this form. */
  ghost predicate IsOwner(name: string, port: nat) {
    exists digits: string, rest: string :: IsOwnerOf(name, port, digits, rest)
  }

  predicate IsOwnerOf(name: string, port: nat, digits: string, rest: string) {
    && '.' !in digits && ParseUnsigned(digits, 65536) == Some(port)
    && TrimDots(name) == "_" + (digits + ("." + ("_tcp" + rest)))
  }

  lemma {:induction false} SplitOnceJoins(s: string, c: char)
    requires SplitOnce(s, c).Some?
    ensures var (a, b) := SplitOnce(s, c).value; c !in a && s == a + ([c] + b)
  {
    if s[0] != c {
      SplitOnceJoins(s[1..], c);
      var (a, b) := SplitOnce(s[1..], c).value;
      assert [s[0]] + (a + ([c] + b)) == ([s[0]] + a) + ([c] + b);
      assert s == [s[0]] + s[1..];
    }
  }

  lemma StripJoins(s: string, prefix: string)
    requires StripPrefix(s, prefix).Some?
    ensures s == prefix + StripPrefix(s, prefix).value
  {
  }

  /** No other name has a port. */
  lemma PortExact(name: string, port: nat)
    ensures PortFromOwner(name) == Some(port) <==> IsOwner(name, port)
  {
    if PortFromOwner(name) == Some(port) {
      var rest := StripPrefix(TrimDots(name), "_").value;
      var (digits, after) := SplitOnce(rest, '.').value;
      StripJoins(TrimDots(name), "_");
      SplitOnceJoins(rest, '.');
      StripJoins(after, "_tcp");
      assert IsOwnerOf(name, port, digits, StripPrefix(after, "_tcp").value);
    }
    if IsOwner(name, port) {
      var digits: string, rest: string :| IsOwnerOf(name, port, digits, rest);
      StripHead("_", digits + ("." + ("_tcp" + rest)));
      SplitOnceAt(digits, '.', "_tcp" + rest);
      StripHead("_tcp", rest);
    }
  }

  lemma LabelledTrims(hostname: Option<string>, host: string)
    requires host == HostPart(hostname)
    ensures TrimDots(Labelled(hostname) + ".") == (if TrimDots(host) == "" then "" else "." + TrimDots(host))
    ensures TrimDots(Labelled(hostname)) == TrimDots(Labelled(hostname) + ".")
  {
    TrimOneDot(Labelled(hostname));
    if host != "" {
      var t := TrimDots(host);
      if t == "" {
        AllDots("." + host);
      } else {
        assert host == t + host[|t|..];
        AllDots(host[|t|..]);
        assert "." + host == ("." + t) + host[|t|..];
        TrimDotsAfter("." + t, host[|t|..]);
        assert ("." + t) + "" == "." + t;
      }
    }
  }

  lemma {:induction false} AllDots(s: string)
    requires forall i | 0 <= i < |s| :: s[i] == '.'
    ensures TrimDots(s) == ""
  {
    if s != "" {
      AllDots(s[..|s| - 1]);
    }
  }

  /** What stands before the zone once the trailing dots are gone. */
  function Head(service: string, labels: string, zone: string): string {
    if zone == "" then service + TrimDots(labels + ".") else service + (labels + ".")
  }

  lemma HeadTrims(service: string, labels: string, zone: string)
    requires service != "" && service[|service| - 1] != '.'
    ensures TrimDots(Head(service, labels, zone)) == service + TrimDots(labels + ".")
  {
    TrimDotsAfter(service, labels + ".");
    TrimmedStays(service + (labels + "."));
  }

  lemma HeadAndZone(service: string, labels: string, zone: string)
    requires service != "" && service[|service| - 1] != '.' && TrimDots(zone) == zone
    ensures TrimDots((service + (labels + ("." + zone))) + ".") == Head(service, labels, zone) + zone
  {
    TrimOneDot(service + (labels + ("." + zone)));
    if zone == "" {
      assert labels + ("." + zone) == labels + ".";
      TrimDotsAfter(service, labels + ".");
      assert Head(service, labels, zone) + "" == Head(service, labels, zone);
    } else {
      assert service + (labels + ("." + zone)) == (service + (labels + ".")) + zone;
      NoTrailingDot((service + (labels + ".")) + zone);
    }
  }

  lemma CutTail(head: string, tail: string)
    ensures (head + tail)[..|head + tail| - |tail|] == head && (head + tail)[|head + tail| - |tail|..] == tail
  {
  }

  lemma NoTrailingDot(s: string)
    requires s != "" && s[|s| - 1] != '.'
    ensures TrimDots(s) == s
  {
  }

  lemma ReadHost(port: nat, host: string)
    requires port < 65536
    ensures HostAfterService(Service(port) + (if host == "" then "" else "." + host)) == Some(host)
  {
    ReadService(port, if host == "" then "" else "." + host);
    if host != "" {
      StripHead(".", host);
    }
  }

  lemma ReadBefore(name: string, head: string, zone: string)
    requires TrimDots(name) == head + TrimDots(zone) && head != ""
    ensures OwnerHost(name, zone) == HostAfterService(TrimDots(head))
  {
    CutTail(head, TrimDots(zone));
  }

  /** Reading the host of an owner name gives the host that it was made for, without trailing dots. */
  lemma HostReadBack(zone: string, port: nat, hostname: Option<string>)
    requires port < 65536
    ensures OwnerHost(Fqdn(zone, port, hostname), zone) == Some(TrimDots(HostPart(hostname)))
  {
    var service, labels, z := Service(port), Labelled(hostname), TrimDots(zone);
    FqdnParts(zone, port, hostname);
    TrimmedStays(zone);
    HeadAndZone(service, labels, z);
    HeadTrims(service, labels, z);
    ReadBefore(Fqdn(zone, port, hostname), Head(service, labels, z), zone);
    LabelledTrims(hostname, HostPart(hostname));
    ReadHost(port, TrimDots(HostPart(hostname)));
  }

  // ---- MX exchanges ----

  lemma {:induction false} TrimNoSpace(s: string)
    requires NoSpace(s)
    ensures Trim(s) == s
  {
  }

  lemma SuffixSplits(s: string, suffix: string)
    requires StripSuffix(s, suffix).Some?
    ensures s == StripSuffix(s, suffix).value + suffix
  {
  }

  lemma LowerSpaces(s: string)
    ensures NoSpace(Lower(s)) <==> NoSpace(s)
  {
    assert forall i | 0 <= i < |s| :: IsSpace(Lower(s)[i]) <==> IsSpace(s[i]);
  }

  /** The part of an exchange's name before the zone that it is below, or nothing. */
  function Relative(zone: string, mxHost: string): string {
    var zone, mx := Lower(TrimDots(zone)), Lower(TrimDots(mxHost));
    if mx == zone then ""
    else match StripSuffix(mx, "." + zone) case Some(rel) => rel case None => ""
  }

  lemma {:induction false} TrimStartShortens(s: string)
    ensures |TrimStart(s)| <= |s| && (|TrimStart(s)| == |s| ==> TrimStart(s) == s)
  {
    if s != "" && IsSpace(s[0]) {
      TrimStartShortens(s[1..]);
    }
  }

  lemma {:induction false} TrimEndShortens(s: string)
    ensures |TrimEnd(s)| <= |s| && (|TrimEnd(s)| == |s| ==> TrimEnd(s) == s)
  {
    if s != "" && IsSpace(s[|s| - 1]) {
      TrimEndShortens(s[..|s| - 1]);
    }
  }

  lemma TrimShortens(s: string)
    ensures |Trim(s)| <= |s| && (|Trim(s)| == |s| ==> Trim(s) == s)
  {
    TrimStartShortens(s);
    TrimEndShortens(TrimStart(s));
  }

  /**
   * The name connected to is the exchange, wherever it is placed, just if no white space is trimmed
   * from what stands before the zone.
   */
  lemma MxConnectsExact(zone: string, mxHost: string)
    ensures var rel := Relative(zone, mxHost);
      EqIgnoreCase(FromMx(zone, mxHost).Connect(), TrimDots(mxHost)) <==> Trim(rel) == rel
  {
    var z, mx, rel := TrimDots(zone), TrimDots(mxHost), Relative(zone, mxHost);
    TrimmedStays(zone);
    TrimmedStays(mxHost);
    if rel != "" {
      SuffixSplits(Lower(mx), "." + Lower(z));
      TrimShortens(rel);
      if Trim(rel) == rel {
        ConnectLower(rel, z, mx);
      } else {
        assert |FromMx(zone, mxHost).Connect()| < |mx|;
      }
    }
  }

  /** For names without white space it always is. */
  lemma MxConnects(zone: string, mxHost: string)
    requires NoSpace(mxHost)
    ensures EqIgnoreCase(FromMx(zone, mxHost).Connect(), TrimDots(mxHost))
  {
    var mx, rel := TrimDots(mxHost), Relative(zone, mxHost);
    LowerSpaces(mx);
    if rel != "" {
      SuffixSplits(Lower(mx), "." + Lower(TrimDots(zone)));
      assert NoSpace(rel) by {
        assert forall i | 0 <= i < |rel| :: rel[i] == Lower(mx)[i];
      }
    }
    TrimNoSpace(rel);
    MxConnectsExact(zone, mxHost);
  }

  lemma SameHead(a: string, b: string, c: string, d: string)
    requires |a| == |c| && a + b == c + d
    ensures a == c
  {
    assert a == (a + b)[..|a|] && c == (c + d)[..|c|];
  }

  lemma ConnectLower(rel: string, zone: string, mx: string)
    requires Lower(mx) == rel + ("." + Lower(zone))
    ensures Lower(rel + "." + zone) == Lower(mx)
  {
    LowerConcat(rel + ".", zone);
    LowerConcat(rel, ".");
    LowerIdempotent(mx);
    LowerConcat(rel, "." + Lower(zone));
    SameHead(Lower(rel), Lower("." + Lower(zone)), rel, "." + Lower(zone));
    assert Lower(".") == ".";
  }

  /** The owner name is the service at the name that is connected to. */
  lemma OwnerNamesTarget(zone: string, mxHost: string, port: nat)
    ensures var target := FromMx(zone, mxHost);
      Fqdn(target.zone, port, target.hostname) == "_" + Decimal(port) + "._tcp." + target.Connect() + "."
  {
    TrimmedStays(zone);
    TrimmedStays(mxHost);
    TrimmedStays(TrimDots(zone));
    TrimmedStays(TrimDots(mxHost));
    var target := FromMx(zone, mxHost);
    assert TrimDots(target.zone) == target.zone;
    TargetOwner(target.zone, target.hostname, port);
  }

  lemma TargetOwner(zone: string, hostname: Option<string>, port: nat)
    requires TrimDots(zone) == zone
    ensures Fqdn(zone, port, hostname) == "_" + Decimal(port) + "._tcp." + ConnectHost(zone, hostname) + "."
  {
  }

  // ---- in the zone or not, label by label ----

  function Labels(s: string): (r: seq<string>)
    ensures r != []
  {
    if s == "" then [""]
    else
      var rest := Labels(s[1..]);
      if s[0] == '.' then [""] + rest else [[s[0]] + rest[0]] + rest[1..]
  }

  function Join(labels: seq<string>): string
    requires labels != []
  {
    if |labels| == 1 then labels[0] else labels[0] + ("." + Join(labels[1..]))
  }

  lemma {:induction false} JoinLabels(s: string)
    ensures Join(Labels(s)) == s
  {
    if s != "" {
      JoinLabels(s[1..]);
      var rest := Labels(s[1..]);
      if s[0] == '.' {
        assert ([""] + rest)[1..] == rest;
        assert "" + ("." + s[1..]) == s;
      } else {
        JoinHead(s[0], rest);
        assert [s[0]] + s[1..] == s;
      }
    }
  }

  lemma JoinHead(c: char, labels: seq<string>)
    requires labels != []
    ensures Join([[c] + labels[0]] + labels[1..]) == [c] + Join(labels)
  {
    var longer := [[c] + labels[0]] + labels[1..];
    assert longer[1..] == labels[1..];
    if |labels| > 1 {
      assert [c] + (labels[0] + ("." + Join(labels[1..]))) == ([c] + labels[0]) + ("." + Join(labels[1..]));
    }
  }

  lemma {:induction false} JoinConcat(a: seq<string>, b: seq<string>)
    requires a != [] && b != []
    ensures Join(a + b) == Join(a) + ("." + Join(b))
  {
    assert (a + b)[1..] == a[1..] + b;
    if |a| > 1 {
      JoinConcat(a[1..], b);
      assert a[0] + ("." + (Join(a[1..]) + ("." + Join(b)))) == (a[0] + ("." + Join(a[1..]))) + ("." + Join(b));
    } else {
      assert a[1..] + b == b;
    }
  }

  lemma {:induction false} LabelsConcat(a: string, b: string)
    ensures Labels(a + ("." + b)) == Labels(a) + Labels(b)
  {
    if a == "" {
      assert a + ("." + b) == "." + b && ("." + b)[1..] == b;
    } else {
      LabelsConcat(a[1..], b);
      assert (a + ("." + b))[1..] == a[1..] + ("." + b);
      LabelsGrow(a[0], Labels(a[1..]), Labels(b));
    }
  }

  lemma LabelsGrow(c: char, labels: seq<string>, more: seq<string>)
    requires labels != []
    ensures [""] + (labels + more) == ([""] + labels) + more
    ensures [[c] + (labels + more)[0]] + (labels + more)[1..] == ([[c] + labels[0]] + labels[1..]) + more
  {
  }

  /** The zone's labels end the name's, and what is left is not one empty label. */
  ghost predicate IsUnder(name: string, zone: string) {
    exists above :: above != [""] && Labels(name) == above + Labels(zone)
  }

  lemma UnderSplits(name: string, zone: string, above: seq<string>)
    requires above != [""] && above != [] && Labels(name) == above + Labels(zone)
    ensures Join(above) != "" && name == Join(above) + ("." + zone)
  {
    JoinLabels(name);
    JoinLabels(zone);
    JoinConcat(above, Labels(zone));
  }

  lemma UnderJoins(rel: string, zone: string)
    requires rel != ""
    ensures IsUnder(rel + ("." + zone), zone)
  {
    LabelsConcat(rel, zone);
    JoinLabels(rel);
    assert Labels(rel) != [""];
  }

  lemma SuffixFound(rel: string, suffix: string)
    ensures StripSuffix(rel + suffix, suffix) == Some(rel)
  {
    assert (rel + suffix)[..|rel|] == rel && (rel + suffix)[|rel|..] == suffix;
  }

  /** An exchange is placed in the zone exactly if it is the zone or below it, counted in labels. */
  lemma InZoneByLabels(zone: string, mxHost: string)
    ensures FromMx(zone, mxHost).InZone(zone) <==> IsUnder(Lower(TrimDots(mxHost)), Lower(TrimDots(zone)))
  {
    var z, mx := Lower(TrimDots(zone)), Lower(TrimDots(mxHost));
    TrimmedStays(zone);
    TrimmedStays(mxHost);
    if mx == z {
      assert Labels(mx) == [] + Labels(z);
    } else {
      var rel := StripSuffix(mx, "." + z);
      if rel.Some? && rel.value != "" {
        SuffixSplits(mx, "." + z);
        UnderJoins(rel.value, z);
      } else if IsUnder(mx, z) {
        OutsideMeansNot(mx, z);
      }
    }
  }

  lemma OutsideMeansNot(mx: string, zone: string)
    requires mx != zone && IsUnder(mx, zone)
    ensures StripSuffix(mx, "." + zone).Some? && StripSuffix(mx, "." + zone).value != ""
  {
    var above :| above != [""] && Labels(mx) == above + Labels(zone);
    SomeAbove(mx, zone, above);
    UnderSplits(mx, zone, above);
    SuffixFound(Join(above), "." + zone);
  }

  lemma SomeAbove(mx: string, zone: string, above: seq<string>)
    requires Labels(mx) == above + Labels(zone)
    ensures above == [] ==> mx == zone
  {
    JoinLabels(mx);
    JoinLabels(zone);
    if above == [] {
      assert above + Labels(zone) == Labels(zone);
    }
  }
}
