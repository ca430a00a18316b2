/** The name under which a rollover keeps its job (src/rollover.rs:277-308). */
module JobIds {
  import opened Text
  import opened Rollover
  import opened JobStore
  import Rdata

  predicate IsSafe(c: char) {
    'a' <= c <= 'z' || 'A' <= c <= 'Z' || '0' <= c <= '9' || c == '.' || c == '-'
  }

  function SafeName(name: string): (r: string)
    ensures |r| == |name|
  {
    seq(|name|, i requires 0 <= i < |name| => if IsSafe(name[i]) then name[i] else '_')
  }

  function PortList(ports: seq<Port>): string {
    if ports == [] then ""
    else if |ports| == 1 then Decimal(ports[0])
    else Decimal(ports[0]) + ("-" + PortList(ports[1..]))
  }

  function Base(zone: string, hostname: Option<string>): string {
    if hostname.Some? && hostname.value != "" then hostname.value + "." + TrimDots(zone) else TrimDots(zone)
  }

  /** `job_id` */
  function JobId(zone: string, hostname: Option<string>, ports: seq<Port>): string {
    SafeName(Base(zone, hostname)) + ("_" + PortList(ports))
  }

  // ---- which jobs can be kept ----

  predicate IsPortChar(c: char) {
    '0' <= c <= '9' || c == '-'
  }

  lemma {:induction false} PortChars(ports: seq<Port>)
    ensures forall i | 0 <= i < |PortList(ports)| :: IsPortChar(PortList(ports)[i])
  {
    if ports != [] {
      Rdata.NumberOfDecimal(ports[0]);
      PortChars(ports[1..]);
    }
  }

  predicate TwoDots(s: string) {
    exists i | 0 <= i < |s| - 1 :: s[i] == '.' == s[i + 1]
  }

  lemma DotsKept(s: string)
    ensures TwoDots(SafeName(s)) <==> TwoDots(s)
  {
    var r := SafeName(s);
    assert forall i | 0 <= i < |s| :: r[i] == '.' <==> s[i] == '.';
    if i :| 0 <= i < |s| - 1 && s[i] == '.' == s[i + 1] {
      assert r[i] == '.' == r[i + 1];
    }
  }

  lemma DotsBefore(a: string, b: string)
    requires forall i | 0 <= i < |b| :: b[i] != '.'
    ensures TwoDots(a + b) <==> TwoDots(a)
  {
    var s := a + b;
    if TwoDots(a) {
      var i :| 0 <= i < |a| - 1 && a[i] == '.' == a[i + 1];
      assert s[i] == '.' == s[i + 1];
    }
  }

  /** No other character, so no path separator, is ever in the name of a file. */
  lemma SafeNames(id: string)
    ensures ValidId(id) <==> 0 < |id| < 200 && !TwoDots(id) && forall i | 0 <= i < |id| :: IsSafe(id[i]) || id[i] == '_'
  {
  }

  /** A job can be kept, and so resumed, exactly if its id is short enough and no name in it has two dots in a row. */
  lemma KeptExactly(zone: string, hostname: Option<string>, ports: seq<Port>)
    ensures ValidId(JobId(zone, hostname, ports)) <==>
      |Base(zone, hostname)| + 1 + |PortList(ports)| < 200 && !TwoDots(Base(zone, hostname))
  {
    var base, list := Base(zone, hostname), PortList(ports);
    var id := JobId(zone, hostname, ports);
    PortChars(ports);
    DotsKept(base);
    DotsBefore(SafeName(base), "_" + list);
    assert ValidId(id) ==> !TwoDots(id);
  }

  // ---- which jobs share an id ----

  /** How much stands before the first mark. */
  function MarkAt(s: string, mark: char): nat {
    if s == "" || s[0] == mark then 0 else 1 + MarkAt(s[1..], mark)
  }

  lemma {:induction false} MarkAfter(a: string, s: string, mark: char)
    requires mark !in a && (s == "" || s[0] == mark)
    ensures MarkAt(a + s, mark) == |a|
  {
    if a == "" {
      assert a + s == s;
    } else {
      MarkAfter(a[1..], s, mark);
      assert (a + s)[1..] == a[1..] + s;
    }
  }

  lemma SplitAtMark(a: string, s: string, b: string, t: string, mark: char)
    requires mark !in a && mark !in b && (s == "" || s[0] == mark) && (t == "" || t[0] == mark)
    requires a + s == b + t
    ensures a == b && s == t
  {
    MarkAfter(a, s, mark);
    MarkAfter(b, t, mark);
    SameParts(a, s, b, t);
  }

  lemma SameParts(a: string, s: string, b: string, t: string)
    requires a + s == b + t && |a| == |b|
    ensures a == b && s == t
  {
    assert (a + s)[..|a|] == a && (b + t)[..|a|] == b && (a + s)[|a|..] == s && (b + t)[|a|..] == t;
  }

  lemma DecimalTells(m: nat, n: nat)
    requires Decimal(m) == Decimal(n)
    ensures m == n
  {
    Rdata.ParseDecimal(m, m + n + 1);
    Rdata.ParseDecimal(n, m + n + 1);
  }

  function AfterFirst(ports: seq<Port>): string {
    if |ports| <= 1 then "" else "-" + PortList(ports[1..])
  }

  lemma {:induction false} PortListTells(a: seq<Port>, b: seq<Port>)
    requires PortList(a) == PortList(b)
    ensures a == b
    decreases |a|
  {
    if a != [] && b != [] {
      Rdata.NumberOfDecimal(a[0]);
      Rdata.NumberOfDecimal(b[0]);
      SplitAtMark(Decimal(a[0]), AfterFirst(a), Decimal(b[0]), AfterFirst(b), '-');
      DecimalTells(a[0], b[0]);
      if |a| > 1 && |b| > 1 {
        assert AfterFirst(a)[1..] == PortList(a[1..]) && AfterFirst(b)[1..] == PortList(b[1..]);
        PortListTells(a[1..], b[1..]);
      }
      assert a == [a[0]] + a[1..] && b == [b[0]] + b[1..];
    }
  }

  /** How much stands before the last underscore. */
  function LastMark(s: string): nat {
    if s == "" then 0 else if s[|s| - 1] == '_' then |s| - 1 else LastMark(s[..|s| - 1])
  }

  lemma {:induction false} LastMarkBefore(a: string, s: string)
    requires '_' !in s
    ensures LastMark(a + ("_" + s)) == |a|
    decreases |s|
  {
    var all := a + ("_" + s);
    if s != "" {
      LastMarkBefore(a, s[..|s| - 1]);
      assert all[..|all| - 1] == a + ("_" + s[..|s| - 1]) && all[|all| - 1] == s[|s| - 1];
    }
  }

  /** The last underscore of an id stands before its ports. */
  lemma SplitAtLast(a: string, s: string, b: string, t: string)
    requires '_' !in s && '_' !in t && a + ("_" + s) == b + ("_" + t)
    ensures a == b && s == t
  {
    LastMarkBefore(a, s);
    LastMarkBefore(b, t);
    SameParts(a, "_" + s, b, "_" + t);
    assert ("_" + s)[1..] == s && ("_" + t)[1..] == t;
  }

  /** Two rollovers share a job exactly if they have the same ports in the same order and the same name but for unusual characters. */
  lemma SharedExactly(zone: string, hostname: Option<string>, ports: seq<Port>,
      zone': string, hostname': Option<string>, ports': seq<Port>)
    ensures JobId(zone, hostname, ports) == JobId(zone', hostname', ports') <==>
      SafeName(Base(zone, hostname)) == SafeName(Base(zone', hostname')) && ports == ports'
  {
    if JobId(zone, hostname, ports) == JobId(zone', hostname', ports') {
      PortChars(ports);
      PortChars(ports');
      SplitAtLast(SafeName(Base(zone, hostname)), PortList(ports), SafeName(Base(zone', hostname')), PortList(ports'));
      PortListTells(ports, ports');
    }
  }
}
