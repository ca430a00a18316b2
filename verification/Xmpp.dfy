/** The XMPP stream upgrade: reading up to a marker, and never past it (src/cert.rs). */
module Xmpp {
  import opened Text
  import opened Wire

  const MAX_RESPONSE := 65536
  const SLASH: Byte := 47
  const OPEN: Byte := 60
  const CLOSE: Byte := 62

  // ---- reading up to a marker ----

  predicate EndsWith(s: seq<Byte>, marker: seq<Byte>) {
    |marker| <= |s| && LowerBytes(s[|s| - |marker|..]) == LowerBytes(marker)
  }

  predicate EndsInMarker(s: seq<Byte>, markers: seq<seq<Byte>>) {
    exists m :: m in markers && EndsWith(s, m)
  }

  /** `n` bytes end in a marker and no fewer do. */
  ghost predicate FirstEnd(s: seq<Byte>, markers: seq<seq<Byte>>, n: nat) {
    0 < n <= |s| && EndsInMarker(s[..n], markers) && forall k | 0 < k < n :: !EndsInMarker(s[..k], markers)
  }

  /** The least `n >= from` with a marker ending there, or one more than the length. */
  function EndFrom(s: seq<Byte>, markers: seq<seq<Byte>>, from: nat): (n: nat)
    requires 0 < from <= |s| + 1
    ensures from <= n <= |s| + 1 && (n <= |s| ==> EndsInMarker(s[..n], markers))
    ensures forall k | from <= k < n :: !EndsInMarker(s[..k], markers)
    decreases |s| - from
  {
    if from > |s| || EndsInMarker(s[..from], markers) then from else EndFrom(s, markers, from + 1)
  }

  /** The shortest prefix that ends in a marker, and what follows it. */
  function Until(input: seq<Byte>, markers: seq<seq<Byte>>): (r: Result<(seq<Byte>, seq<Byte>)>)
    ensures r.Ok? <==> exists n: nat :: FirstEnd(input, markers, n) && n <= MAX_RESPONSE
    ensures r.Ok? ==> input == r.value.0 + r.value.1 && FirstEnd(input, markers, |r.value.0|) && |r.value.0| <= MAX_RESPONSE
  {
    var n := EndFrom(input, markers, 1);
    assert n <= |input| ==> FirstEnd(input, markers, n);
    if n <= MAX_RESPONSE && n <= |input| then Ok((input[..n], input[n..]))
    else if |input| <= MAX_RESPONSE then Err(Closed)
    else Err(ResponseTooLong)
  }

  method ReadUntilMarkers(stream: Stream, markers: seq<seq<Byte>>) returns (r: Result<seq<Byte>>)
    modifies stream`input
    ensures match Until(old(stream.input), markers)
      case Ok((taken, rest)) => r == Ok(taken) && stream.input == rest
      case Err(e) => r == Err(e)
  {
    ghost var all := stream.input;
    var buf: seq<Byte> := [];
    while true
      invariant |buf| <= |all| && |buf| <= MAX_RESPONSE && buf == all[..|buf|] && stream.input == all[|buf|..]
      invariant forall k | 0 < k <= |buf| :: !EndsInMarker(all[..k], markers)
      decreases |all| - |buf|
    {
      var byte := stream.ReadByte();
      if byte == None {
        return Err(Closed);
      }
      assert all[..|buf| + 1] == all[..|buf|] + [all[|buf|]];
      buf := buf + [byte.value];
      if |buf| > MAX_RESPONSE {
        return Err(ResponseTooLong);
      }
      if EndsInMarker(buf, markers) {
        return Ok(buf);
      }
    }
  }

  lemma UntilIs(taken: seq<Byte>, rest: seq<Byte>, markers: seq<seq<Byte>>)
    requires FirstEnd(taken, markers, |taken|) && |taken| <= MAX_RESPONSE
    ensures Until(taken + rest, markers) == Ok((taken, rest))
  {
    var s, n := taken + rest, |taken|;
    assert forall k | 0 < k <= n :: s[..k] == taken[..k];
    assert FirstEnd(s, markers, n);
    var r := Until(s, markers).value.0;
    assert |r| == n;
  }

  /** With the literal limit: it is met, or the peer has sent too much. */
  lemma UntilExactly(taken: seq<Byte>, rest: seq<Byte>, markers: seq<seq<Byte>>)
    requires FirstEnd(taken, markers, |taken|)
    ensures Until(taken + rest, markers) == if |taken| <= 65536 then Ok((taken, rest)) else Err(ResponseTooLong)
  {
    var s, n := taken + rest, |taken|;
    assert forall k | 0 < k <= n :: s[..k] == taken[..k];
    assert FirstEnd(s, markers, n);
    if n <= MAX_RESPONSE {
      UntilIs(taken, rest, markers);
    }
  }

  // ---- elements ----

  predicate MatchesAt(s: seq<Byte>, part: seq<Byte>, i: int) {
    0 <= i <= |s| - |part| && LowerBytes(s[i..i + |part|]) == LowerBytes(part)
  }

  /** The text has the part in it, in any case. */
  predicate Contains(s: seq<Byte>, part: seq<Byte>) {
    exists i | 0 <= i <= |s| - |part| :: MatchesAt(s, part, i)
  }

  predicate EndsInThree(s: seq<Byte>, a: Byte, b: Byte, c: Byte) {
    |s| >= 3 && s[|s| - 3] == a && s[|s| - 2] == b && s[|s| - 1] == c
  }

  /** Bytes of the white-space character that ends the text, or 0 if none does. */
  function SpaceAtEnd(s: seq<Byte>): (n: nat)
    ensures n <= |s|
  {
    var l := |s|;
    if l >= 1 && (9 <= s[l - 1] <= 13 || s[l - 1] == 32) then 1
    else if l >= 2 && s[l - 2] == 0xC2 && (s[l - 1] == 0x85 || s[l - 1] == 0xA0) then 2
    else if EndsInThree(s, 0xE1, 0x9A, 0x80) || EndsInThree(s, 0xE2, 0x81, 0x9F) || EndsInThree(s, 0xE3, 0x80, 0x80) then 3
    else if l >= 3 && s[l - 3] == 0xE2 && s[l - 2] == 0x80 && (s[l - 1] <= 0x8A || s[l - 1] == 0xA8 || s[l - 1] == 0xA9 || s[l - 1] == 0xAF) && 0x80 <= s[l - 1] then 3
    else 0
  }

  function TrimEnd(s: seq<Byte>): seq<Byte> {
    if SpaceAtEnd(s) == 0 then s else TrimEnd(s[..|s| - SpaceAtEnd(s)])
  }

  predicate LastIs(s: seq<Byte>, b: Byte) {
    s != [] && s[|s| - 1] == b
  }

  /** `xml_start_is_empty` */
  predicate IsEmptyTag(s: seq<Byte>) {
    var t := TrimEnd(s);
    LastIs(t, CLOSE) && LastIs(TrimEnd(t[..|t| - 1]), SLASH)
  }

  function OpenTag(name: seq<Byte>): seq<Byte> { [OPEN] + name }

  function CloseTag(name: seq<Byte>): seq<Byte> { [OPEN, SLASH] + name + [CLOSE] }

  function OpenTags(names: seq<seq<Byte>>): (r: seq<seq<Byte>>)
    ensures |r| == |names|
  {
    seq(|names|, i requires 0 <= i < |names| => OpenTag(names[i]))
  }

  /** The first of the names whose tag the text contains. */
  function NameIn(s: seq<Byte>, names: seq<seq<Byte>>): Option<seq<Byte>> {
    if names == [] then None
    else if Contains(s, OpenTag(names[0])) then Some(names[0])
    else NameIn(s, names[1..])
  }

  function Then(taken: seq<Byte>, input: seq<Byte>, marker: seq<Byte>): Result<(seq<Byte>, seq<Byte>)> {
    match Until(input, [marker])
    case Err(e) => Err(e)
    case Ok((more, rest)) => Ok((taken + more, rest))
  }

  function ToBracket(taken: seq<Byte>, input: seq<Byte>): Result<(seq<Byte>, seq<Byte>)> {
    if CLOSE in taken then Ok((taken, input)) else Then(taken, input, [CLOSE])
  }

  /** A complete element: an empty tag, or everything up to its closing tag. */
  function Element(input: seq<Byte>, names: seq<seq<Byte>>): Result<(seq<Byte>, seq<Byte>)>
    requires names != []
  {
    match Until(input, OpenTags(names))
    case Err(e) => Err(e)
    case Ok((start, rest)) =>
      match ToBracket(start, rest)
      case Err(e) => Err(e)
      case Ok((tag, rest)) =>
        if IsEmptyTag(tag) then Ok((tag, rest))
        else
          var named := NameIn(tag, names);
          var close := CloseTag(if named.Some? then named.value else names[0]);
          if Contains(tag, close) then Ok((tag, rest)) else Then(tag, rest, close)
  }

  method XmppReadElement(stream: Stream, names: seq<seq<Byte>>) returns (r: Result<seq<Byte>>)
    requires names != []
    modifies stream`input
    ensures match Element(old(stream.input), names)
      case Ok((taken, rest)) => r == Ok(taken) && stream.input == rest
      case Err(e) => r == Err(e)
  {
    r := ReadUntilMarkers(stream, OpenTags(names));
    if r.Err? {
      return;
    }
    var buf := r.value;
    if CLOSE !in buf {
      r := ReadUntilMarkers(stream, [[CLOSE]]);
      if r.Err? {
        return;
      }
      buf := buf + r.value;
    }
    if IsEmptyTag(buf) {
      return Ok(buf);
    }
    var named := NameIn(buf, names);
    var close := CloseTag(if named.Some? then named.value else names[0]);
    if !Contains(buf, close) {
      r := ReadUntilMarkers(stream, [close]);
      if r.Err? {
        return;
      }
      buf := buf + r.value;
    }
    r := Ok(buf);
  }

  // ---- the dialogue ----

  const FEATURE_MARKERS: seq<seq<Byte>> := [Bytes("</stream:features>"), Bytes("<stream:features/>")]
  const PROCEED: seq<Byte> := Bytes("proceed")
  const FAILURE: seq<Byte> := Bytes("failure")

  predicate Advertises(features: seq<Byte>) {
    Contains(features, Bytes("starttls")) || Contains(features, Bytes("urn:ietf:params:xml:ns:xmpp-tls"))
  }

  datatype Outcome = Upgraded(rest: seq<Byte>) | Refused(error: Error)

  function Dialogue(input: seq<Byte>): Outcome {
    match Until(input, FEATURE_MARKERS)
    case Err(e) => Refused(e)
    case Ok((features, afterFeatures)) =>
      if !Advertises(features) then Refused(NoStarttls)
      else
        match Element(afterFeatures, [PROCEED, FAILURE])
        case Err(e) => Refused(e)
        case Ok((reply, rest)) => if Contains(reply, OpenTag(FAILURE)) then Refused(StarttlsRejected) else Upgraded(rest)
  }

  function Entity(b: Byte): seq<Byte> {
    match b
    case 38 => Bytes("&amp;")
    case 60 => Bytes("&lt;")
    case 62 => Bytes("&gt;")
    case 39 => Bytes("&apos;")
    case 34 => Bytes("&quot;")
    case _ => [b]
  }

  /** `xml_attr` */
  function XmlAttr(value: seq<Byte>): seq<Byte> {
    if value == [] then [] else Entity(value[0]) + XmlAttr(value[1..])
  }

  function StreamOpen(domain: seq<Byte>, port: int): seq<Byte> {
    Bytes("<?xml version='1.0'?><stream:stream xmlns='") + Bytes(if port == 5269 then "jabber:server" else "jabber:client")
    + Bytes("' xmlns:stream='http://etherx.jabber.org/streams' to='") + XmlAttr(domain) + Bytes("' version='1.0'>")
  }

  const STARTTLS: seq<Byte> := Bytes("<starttls xmlns='urn:ietf:params:xml:ns:xmpp-tls'/>")

  method XmppNegotiate(stream: Stream, domain: seq<Byte>, port: int) returns (r: Result<()>)
    modifies stream
    ensures match Dialogue(old(stream.input))
      case Upgraded(rest) =>
        && r == Ok(()) && stream.input == rest
        && stream.output == old(stream.output) + StreamOpen(domain, port) + Bytes("<starttls xmlns='urn:ietf:params:xml:ns:xmpp-tls'/>")
      case Refused(e) => r == Err(e)
  {
    stream.WriteAll(StreamOpen(domain, port));
    var features := ReadUntilMarkers(stream, FEATURE_MARKERS);
    if features.Err? {
      return Err(features.error);
    }
    if !Advertises(features.value) {
      return Err(NoStarttls);
    }
    stream.WriteAll(STARTTLS);
    var reply := XmppReadElement(stream, [PROCEED, FAILURE]);
    if reply.Err? {
      return Err(reply.error);
    }
    if Contains(reply.value, OpenTag(FAILURE)) {
      return Err(StarttlsRejected);
    }
    r := Ok(());
  }

  // ---- what upgrades and what does not ----

  /** The part stands here, byte for byte up to case. */
  lemma MatchesMeans(s: seq<Byte>, part: seq<Byte>, i: int)
    ensures MatchesAt(s, part, i) <==>
      0 <= i <= |s| - |part| && forall j | 0 <= j < |part| :: SameByte(s[i..i + |part|][j], part[j])
  {
    if 0 <= i <= |s| - |part| {
      EqualBytes(s[i..i + |part|], part);
    }
  }

  lemma ContainsMore(s: seq<Byte>, more: seq<Byte>, part: seq<Byte>)
    requires Contains(s, part)
    ensures Contains(s + more, part)
  {
    var i :| 0 <= i <= |s| - |part| && MatchesAt(s, part, i);
    assert (s + more)[i..i + |part|] == s[i..i + |part|];
    assert MatchesAt(s + more, part, i);
  }

  lemma EndsContains(s: seq<Byte>, part: seq<Byte>)
    requires EndsWith(s, part)
    ensures Contains(s, part)
  {
    assert MatchesAt(s, part, |s| - |part|);
  }

  lemma BracketTaken(start: seq<Byte>, rest: seq<Byte>)
    requires ToBracket(start, rest).Ok?
    ensures var (tag, after) := ToBracket(start, rest).value; start + rest == tag + after && start <= tag
  {
    if CLOSE !in start {
      var (more, after) := Until(rest, [[CLOSE]]).value;
      Associative(start, more, after);
    }
  }

  /** An element is the beginning of the input and begins with all there is up to the first start of it. */
  lemma ElementTaken(input: seq<Byte>, names: seq<seq<Byte>>)
    requires names != [] && Element(input, names).Ok?
    ensures var (reply, rest) := Element(input, names).value;
      input == reply + rest && Until(input, OpenTags(names)).Ok? && Until(input, OpenTags(names)).value.0 <= reply
  {
    var (start, rest) := Until(input, OpenTags(names)).value;
    BracketTaken(start, rest);
    var (tag, after) := ToBracket(start, rest).value;
    var (reply, last) := Element(input, names).value;
    if reply != tag || last != after {
      var more := reply[|tag|..];
      assert reply == tag + more;
      Associative(tag, more, last);
    }
  }

  /**
   * Whatever is sent, there is an upgrade only after features that offer it and a reply that has
   * `<proceed` and no `<failure` in it; the rest is what follows those two.
   */
  lemma OnlyProceedUpgrades(input: seq<Byte>)
    requires Dialogue(input).Upgraded?
    ensures exists features, reply ::
      && input == features + (reply + Dialogue(input).rest)
      && (Contains(features, Bytes("starttls")) || Contains(features, Bytes("urn:ietf:params:xml:ns:xmpp-tls")))
      && EndsInMarker(features, [Bytes("</stream:features>"), Bytes("<stream:features/>")])
      && Contains(reply, Bytes("<proceed")) && !Contains(reply, Bytes("<failure"))
  {
    var (features, after) := Until(input, FEATURE_MARKERS).value;
    assert features[..|features|] == features;
    var (reply, rest) := Element(after, [PROCEED, FAILURE]).value;
    ReplyNamed(after, reply, rest);
    TagBytes();
  }

  /** The element that is read has one of the two tags in it. */
  lemma ReplyNamed(input: seq<Byte>, reply: seq<Byte>, rest: seq<Byte>)
    requires Element(input, [PROCEED, FAILURE]) == Ok((reply, rest))
    ensures input == reply + rest && (Contains(reply, OpenTag(PROCEED)) || Contains(reply, OpenTag(FAILURE)))
  {
    ElementTaken(input, [PROCEED, FAILURE]);
    var (start, _) := Until(input, OpenTags([PROCEED, FAILURE])).value;
    assert start[..|start|] == start;
    NamedStart(start);
    ContainsMore(start, reply[|start|..], if EndsWith(start, OpenTag(PROCEED)) then OpenTag(PROCEED) else OpenTag(FAILURE));
    assert start + reply[|start|..] == reply;
  }

  lemma TagBytes()
    ensures OpenTag(PROCEED) == Bytes("<proceed") && OpenTag(FAILURE) == Bytes("<failure")
  {
  }

  lemma NamedStart(start: seq<Byte>)
    requires EndsInMarker(start, OpenTags([PROCEED, FAILURE]))
    ensures if EndsWith(start, OpenTag(PROCEED)) then Contains(start, OpenTag(PROCEED)) else Contains(start, OpenTag(FAILURE))
  {
    var tags := OpenTags([PROCEED, FAILURE]);
    assert tags == [OpenTag(PROCEED), OpenTag(FAILURE)];
    var m :| m in tags && EndsWith(start, m);
    if EndsWith(start, OpenTag(PROCEED)) {
      EndsContains(start, OpenTag(PROCEED));
    } else {
      EndsContains(start, m);
    }
  }

  /** Features that do not offer it end the dialogue, and so does a failure, however each goes on. */
  lemma RefusalsStand(features: seq<Byte>, start: seq<Byte>, rest: seq<Byte>)
    requires FirstEnd(features, FEATURE_MARKERS, |features|) && |features| <= MAX_RESPONSE
    requires FirstEnd(start, OpenTags([PROCEED, FAILURE]), |start|) && |start| <= MAX_RESPONSE
    ensures !Advertises(features) ==> Dialogue(features + rest) == Refused(NoStarttls)
    ensures EndsWith(start, Bytes("<failure")) ==> Dialogue(features + (start + rest)).Refused?
  {
    UntilIs(features, rest, FEATURE_MARKERS);
    UntilIs(features, start + rest, FEATURE_MARKERS);
    UntilIs(start, rest, OpenTags([PROCEED, FAILURE]));
    var element := Element(start + rest, [PROCEED, FAILURE]);
    if EndsWith(start, Bytes("<failure")) && element.Ok? {
      TagBytes();
      ElementTaken(start + rest, [PROCEED, FAILURE]);
      var reply := element.value.0;
      EndsContains(start, OpenTag(FAILURE));
      ContainsMore(start, reply[|start|..], OpenTag(FAILURE));
      assert start + reply[|start|..] == reply;
    }
  }

  // ---- what is sent ----

  /** Reading an attribute value: the five entities of XML, and every other byte as it is. */
  function AttributeValue(text: seq<Byte>): seq<Byte> {
    if text == [] then []
    else if Bytes("&amp;") <= text then [38] + AttributeValue(text[5..])
    else if Bytes("&lt;") <= text then [60] + AttributeValue(text[4..])
    else if Bytes("&gt;") <= text then [62] + AttributeValue(text[4..])
    else if Bytes("&apos;") <= text then [39] + AttributeValue(text[6..])
    else if Bytes("&quot;") <= text then [34] + AttributeValue(text[6..])
    else [text[0]] + AttributeValue(text[1..])
  }

  /** The stream that is opened: to servers on their own port, to clients on any other (section 4.7 of RFC 6120). */
  lemma StreamHeader(domain: seq<Byte>, port: int)
    ensures StreamOpen(domain, port) ==
      Bytes("<?xml version='1.0'?><stream:stream xmlns='")
      + (if port != 5269 then Bytes("jabber:client") else Bytes("jabber:server"))
      + Bytes("' xmlns:stream='http://etherx.jabber.org/streams' to='") + XmlAttr(domain) + Bytes("' version='1.0'>")
  {
  }

  lemma AmpRead(rest: seq<Byte>)
    ensures AttributeValue(Bytes("&amp;") + rest) == [38] + AttributeValue(rest)
  {
    assert (Bytes("&amp;") + rest)[5..] == rest;
  }

  lemma BracketsRead(rest: seq<Byte>)
    ensures AttributeValue(Bytes("&lt;") + rest) == [60] + AttributeValue(rest)
    ensures AttributeValue(Bytes("&gt;") + rest) == [62] + AttributeValue(rest)
  {
    var l, g := Bytes("&lt;"), Bytes("&gt;");
    assert (l + rest)[4..] == rest && (g + rest)[4..] == rest;
    assert (l + rest)[1] == 108 && (g + rest)[1] == 103 && Bytes("&amp;")[1] == 97;
  }

  lemma AposRead(rest: seq<Byte>)
    ensures AttributeValue(Bytes("&apos;") + rest) == [39] + AttributeValue(rest)
  {
    var a := Bytes("&apos;") + rest;
    assert a[6..] == rest && a[1] == 97 && a[2] == 112;
    assert Bytes("&amp;")[2] == 109 && Bytes("&lt;")[1] == 108 && Bytes("&gt;")[1] == 103;
  }

  lemma QuotRead(rest: seq<Byte>)
    ensures AttributeValue(Bytes("&quot;") + rest) == [34] + AttributeValue(rest)
  {
    var q := Bytes("&quot;") + rest;
    assert q[6..] == rest && q[1] == 113;
    assert Bytes("&amp;")[1] == Bytes("&apos;")[1] == 97 && Bytes("&lt;")[1] == 108 && Bytes("&gt;")[1] == 103;
  }

  lemma OtherRead(b: Byte, rest: seq<Byte>)
    requires b != 38
    ensures AttributeValue([b] + rest) == [b] + AttributeValue(rest)
  {
    assert ([b] + rest)[1..] == rest && ([b] + rest)[0] == b;
    assert Bytes("&amp;")[0] == Bytes("&lt;")[0] == Bytes("&gt;")[0] == Bytes("&apos;")[0] == Bytes("&quot;")[0] == 38;
  }

  lemma EntityRead(b: Byte, rest: seq<Byte>)
    ensures AttributeValue(Entity(b) + rest) == [b] + AttributeValue(rest)
  {
    match b
    case 38 => AmpRead(rest);
    case 60 => BracketsRead(rest);
    case 62 => BracketsRead(rest);
    case 39 => AposRead(rest);
    case 34 => QuotRead(rest);
    case _ => OtherRead(b, rest);
  }

  lemma EntityPlain(b: Byte)
    ensures var e := Entity(b); 60 !in e && 62 !in e && 39 !in e && 34 !in e
  {
  }

  /** The server reads every domain back as it was. */
  lemma {:induction false} DomainReadBack(value: seq<Byte>)
    ensures AttributeValue(XmlAttr(value)) == value
  {
    if value != [] {
      DomainReadBack(value[1..]);
      EntityRead(value[0], XmlAttr(value[1..]));
    }
  }

  /** And nothing in it ends the attribute or the tag (section 2.3 of XML 1.0). */
  lemma {:induction false} DomainQuoted(value: seq<Byte>)
    ensures var text := XmlAttr(value); 60 !in text && 62 !in text && 39 !in text && 34 !in text
  {
    if value != [] {
      DomainQuoted(value[1..]);
      EntityPlain(value[0]);
    }
  }

  // ---- exact framing ----

  predicate Plain(s: seq<Byte>) {
    OPEN !in s && CLOSE !in s
  }

  /** `<proceed`, in any mixture of cases, after a gap. */
  ghost predicate IsStart(start: seq<Byte>, gap: seq<Byte>) {
    && Plain(gap) && |start| == |gap| + 8 && start[..|gap|] == gap
    && LowerBytes(start[|gap|..]) == Bytes("<proceed") && |start| <= MAX_RESPONSE
  }

  lemma LowerKeepsOpen(s: seq<Byte>, i: nat)
    requires i < |s|
    ensures LowerBytes(s)[i] == OPEN <==> s[i] == OPEN
    ensures LowerBytes(s)[i] == CLOSE <==> s[i] == CLOSE
  {
  }

  lemma MarkerBytes()
    ensures Bytes("<proceed") == OpenTag(PROCEED) && |OpenTag(PROCEED)| == |OpenTag(FAILURE)| == 8
    ensures LowerBytes(OpenTag(PROCEED)) == OpenTag(PROCEED) && LowerBytes(OpenTag(FAILURE)) == OpenTag(FAILURE)
    ensures OpenTags([PROCEED, FAILURE]) == [OpenTag(PROCEED), OpenTag(FAILURE)]
    ensures OpenTag(PROCEED)[1] == 112 && OpenTag(FAILURE)[1] == 102
    ensures forall i | 1 <= i < 8 :: OpenTag(PROCEED)[i] >= 97
  {
  }

  /** A text with its only `<` at one place matches a tag of that length nowhere else. */
  lemma StartFirst(start: seq<Byte>, gap: seq<Byte>)
    requires IsStart(start, gap)
    ensures FirstEnd(start, OpenTags([PROCEED, FAILURE]), |start|)
  {
    MarkerBytes();
    var markers := OpenTags([PROCEED, FAILURE]);
    assert start[..|start|] == start && EndsWith(start, markers[0]);
    forall k | 0 < k < |start| ensures !EndsInMarker(start[..k], markers) {
      forall m | m in markers ensures !EndsWith(start[..k], m) {
        if 8 <= k {
          LowerKeepsOpen(start[..k][k - 8..], 0);
          assert start[k - 8] == gap[k - 8];
        }
      }
    }
  }

  /** The features block is all the server says up to its closing tag, and offers STARTTLS. */
  ghost predicate IsFeatures(features: seq<Byte>) {
    FirstEnd(features, FEATURE_MARKERS, |features|) && |features| <= MAX_RESPONSE && Advertises(features)
  }

  /** `<proceed`, attributes and a bracket. */
  ghost predicate IsTag(tag: seq<Byte>, start: seq<Byte>, gap: seq<Byte>, attributes: seq<Byte>) {
    IsStart(start, gap) && Plain(attributes) && |attributes| < MAX_RESPONSE && tag == start + attributes + [CLOSE]
  }

  /** In a tag the only `<` is the one it starts with. */
  lemma OpenOnce(tag: seq<Byte>, start: seq<Byte>, gap: seq<Byte>, attributes: seq<Byte>, i: nat)
    requires IsTag(tag, start, gap, attributes) && i < |tag|
    ensures tag[i] == OPEN <==> i == |gap|
    ensures tag[i] == CLOSE <==> i == |tag| - 1
  {
    MarkerBytes();
    if i < |gap| {
      assert tag[i] == gap[i];
    } else if i < |start| {
      assert tag[i] == start[|gap|..][i - |gap|];
      assert LowerByte(tag[i]) == LowerBytes(start[|gap|..])[i - |gap|] == OpenTag(PROCEED)[i - |gap|];
    } else if i < |tag| - 1 {
      assert tag[i] == attributes[i - |start|];
    }
  }

  /** A part that starts with `<` matches a tag only at its start. */
  lemma MatchOnlyAtStart(tag: seq<Byte>, start: seq<Byte>, gap: seq<Byte>, attributes: seq<Byte>, part: seq<Byte>, i: int)
    requires IsTag(tag, start, gap, attributes) && part != [] && part[0] == OPEN && MatchesAt(tag, part, i)
    ensures i == |gap|
  {
    LowerKeepsOpen(tag[i..i + |part|], 0);
    LowerKeepsOpen(part, 0);
    OpenOnce(tag, start, gap, attributes, i);
  }

  lemma SecondByte(s: seq<Byte>, part: seq<Byte>, i: int)
    requires MatchesAt(s, part, i) && |part| >= 2
    ensures LowerByte(s[i + 1]) == LowerByte(part[1])
  {
    assert LowerBytes(s[i..i + |part|])[1] == LowerBytes(part)[1];
  }

  lemma TagNames(tag: seq<Byte>, start: seq<Byte>, gap: seq<Byte>, attributes: seq<Byte>)
    requires IsTag(tag, start, gap, attributes)
    ensures Contains(tag, OpenTag(PROCEED)) && !Contains(tag, OpenTag(FAILURE)) && !Contains(tag, CloseTag(PROCEED))
  {
    MarkerBytes();
    var g := |gap|;
    assert tag[g..g + 8] == start[g..];
    assert MatchesAt(tag, OpenTag(PROCEED), g);
    assert LowerBytes(tag[g..g + 8])[1] == 112;
    if Contains(tag, OpenTag(FAILURE)) {
      var i :| 0 <= i <= |tag| - 8 && MatchesAt(tag, OpenTag(FAILURE), i);
      MatchOnlyAtStart(tag, start, gap, attributes, OpenTag(FAILURE), i);
    }
    var close := CloseTag(PROCEED);
    assert LowerByte(tag[g + 1]) == 112 && LowerByte(close[1]) == SLASH;
    if Contains(tag, close) {
      var i :| 0 <= i <= |tag| - |close| && MatchesAt(tag, close, i);
      SecondByte(tag, close, i);
      MatchOnlyAtStart(tag, start, gap, attributes, close, i);
    }
  }

  lemma BracketFirst(text: seq<Byte>)
    requires Plain(text)
    ensures FirstEnd(text + [CLOSE], [[CLOSE]], |text| + 1)
  {
    var s := text + [CLOSE];
    assert s[..|text| + 1] == s && EndsWith(s, [CLOSE]);
    forall k | 0 < k <= |text| ensures !EndsInMarker(s[..k], [[CLOSE]]) {
      LowerKeepsOpen(s[..k][k - 1..], 0);
      assert s[k - 1] == text[k - 1];
    }
  }

  /** The start of the tag is read, however it goes on. */
  lemma StartRead(start: seq<Byte>, gap: seq<Byte>, rest: seq<Byte>)
    requires IsStart(start, gap)
    ensures Until(start + rest, OpenTags([PROCEED, FAILURE])) == Ok((start, rest))
  {
    StartFirst(start, gap);
    UntilIs(start, rest, OpenTags([PROCEED, FAILURE]));
  }

  lemma NoBracketInStart(tag: seq<Byte>, start: seq<Byte>, gap: seq<Byte>, attributes: seq<Byte>)
    requires IsTag(tag, start, gap, attributes)
    ensures CLOSE !in start
  {
    forall i | 0 <= i < |start| ensures start[i] != CLOSE {
      OpenOnce(tag, start, gap, attributes, i);
    }
  }

  /** And then the rest of it, up to its bracket. */
  lemma BracketRead(start: seq<Byte>, attributes: seq<Byte>, rest: seq<Byte>)
    requires CLOSE !in start && Plain(attributes) && |attributes| < MAX_RESPONSE
    ensures ToBracket(start, (attributes + [CLOSE]) + rest) == Ok((start + (attributes + [CLOSE]), rest))
  {
    BracketFirst(attributes);
    UntilIs(attributes + [CLOSE], rest, [[CLOSE]]);
  }

  lemma TagRead(tag: seq<Byte>, start: seq<Byte>, gap: seq<Byte>, attributes: seq<Byte>, rest: seq<Byte>)
    requires IsTag(tag, start, gap, attributes)
    ensures Until(tag + rest, OpenTags([PROCEED, FAILURE])) == Ok((start, (attributes + [CLOSE]) + rest))
    ensures ToBracket(start, (attributes + [CLOSE]) + rest) == Ok((tag, rest))
  {
    Associative(start, attributes, [CLOSE]);
    Associative(start, attributes + [CLOSE], rest);
    StartRead(start, gap, (attributes + [CLOSE]) + rest);
    NoBracketInStart(tag, start, gap, attributes);
    BracketRead(start, attributes, rest);
  }

  lemma EmptyTag(text: seq<Byte>)
    ensures IsEmptyTag(text + [SLASH, CLOSE])
  {
    var s := text + [SLASH, CLOSE];
    assert SpaceAtEnd(s) == 0;
    var t := s[..|s| - 1];
    assert SpaceAtEnd(t) == 0;
  }

  /** What the dialogue comes to once the features and the first tag of the reply are in. */
  function Reply(tag: seq<Byte>, rest: seq<Byte>): Outcome {
    if IsEmptyTag(tag) then Upgraded(rest)
    else
      match Until(rest, [CloseTag(PROCEED)])
      case Err(e) => Refused(e)
      case Ok((more, after)) =>
        if Contains(tag + more, OpenTag(FAILURE)) then Refused(StarttlsRejected) else Upgraded(after)
  }

  lemma NamedProceed(tag: seq<Byte>, start: seq<Byte>, gap: seq<Byte>, attributes: seq<Byte>)
    requires IsTag(tag, start, gap, attributes)
    ensures NameIn(tag, [PROCEED, FAILURE]) == Some(PROCEED)
  {
    TagNames(tag, start, gap, attributes);
  }

  /** An element whose first tag has been found and named. */
  lemma ElementIs(input: seq<Byte>, names: seq<seq<Byte>>, start: seq<Byte>, middle: seq<Byte>, tag: seq<Byte>, rest: seq<Byte>, name: seq<Byte>)
    requires names != [] && Until(input, OpenTags(names)) == Ok((start, middle)) && ToBracket(start, middle) == Ok((tag, rest))
    requires NameIn(tag, names) == Some(name) && !Contains(tag, CloseTag(name))
    ensures Element(input, names) == if IsEmptyTag(tag) then Ok((tag, rest)) else Then(tag, rest, CloseTag(name))
  {
  }

  /** Reading the reply, once the features are in. */
  lemma ElementRead(tag: seq<Byte>, start: seq<Byte>, gap: seq<Byte>, attributes: seq<Byte>, rest: seq<Byte>)
    requires IsTag(tag, start, gap, attributes)
    ensures Element(tag + rest, [PROCEED, FAILURE])
         == if IsEmptyTag(tag) then Ok((tag, rest)) else Then(tag, rest, CloseTag(PROCEED))
  {
    TagRead(tag, start, gap, attributes, rest);
    NamedProceed(tag, start, gap, attributes);
    TagNames(tag, start, gap, attributes);
    ElementIs(tag + rest, [PROCEED, FAILURE], start, (attributes + [CLOSE]) + rest, tag, rest, PROCEED);
  }

  lemma AfterTag(features: seq<Byte>, reply: seq<Byte>, tag: seq<Byte>, start: seq<Byte>, gap: seq<Byte>, attributes: seq<Byte>, rest: seq<Byte>)
    requires IsFeatures(features) && IsTag(tag, start, gap, attributes) && reply == tag + rest
    ensures Dialogue(features + reply) == Reply(tag, rest)
  {
    UntilIs(features, reply, FEATURE_MARKERS);
    ElementRead(tag, start, gap, attributes, rest);
    TagNames(tag, start, gap, attributes);
  }

  /**
   * Features, then `<proceed .../>`: the upgrade succeeds and the bytes after the bracket, the
   * first of the TLS handshake, are still unread.
   */
  lemma EmptyProceedFramed(features: seq<Byte>, start: seq<Byte>, gap: seq<Byte>, attributes: seq<Byte>, rest: seq<Byte>)
    requires IsFeatures(features) && IsStart(start, gap) && Plain(attributes) && |attributes| + 1 < MAX_RESPONSE
    ensures Dialogue(features + (start + attributes + [47, 62] + rest)) == Upgraded(rest)
  {
    var all := attributes + [SLASH];
    var tag := start + all + [CLOSE];
    assert start + attributes + [SLASH, CLOSE] == tag;
    EmptyTag(start + attributes);
    AfterTag(features, tag + rest, tag, start, gap, all, rest);
  }

  /** The same for `<proceed ...>`, any content and its closing tag. */
  lemma PairedProceedFramed(features: seq<Byte>, tag: seq<Byte>, start: seq<Byte>, gap: seq<Byte>, attributes: seq<Byte>, body: seq<Byte>, rest: seq<Byte>)
    requires IsFeatures(features) && IsTag(tag, start, gap, attributes) && !IsEmptyTag(tag)
    requires FirstEnd(body, [CloseTag(PROCEED)], |body|) && |body| <= MAX_RESPONSE
    requires !Contains(tag + body, OpenTag(FAILURE))
    ensures Dialogue(features + (tag + body + rest)) == Upgraded(rest)
  {
    Associative(tag, body, rest);
    BodyFramed(tag, body, rest);
    AfterTag(features, tag + body + rest, tag, start, gap, attributes, body + rest);
  }

  lemma BodyFramed(tag: seq<Byte>, body: seq<Byte>, rest: seq<Byte>)
    requires !IsEmptyTag(tag) && EndsElement(tag, body)
    ensures Reply(tag, body + rest) == Upgraded(rest)
  {
    UntilIs(body, rest, [CloseTag(PROCEED)]);
  }

  // ---- which replies are framed ----

  /** Whatever comes next, the reply is consumed to its end and nothing after it is. */
  ghost predicate IsFramed(features: seq<Byte>, reply: seq<Byte>) {
    forall rest :: Dialogue(features + (reply + rest)) == Upgraded(rest)
  }

  /** The body ends where it first has `</proceed>` in it, within the limit and with no `<failure` on the way. */
  ghost predicate EndsElement(tag: seq<Byte>, body: seq<Byte>) {
    && FirstEnd(body, [CloseTag(PROCEED)], |body|) && |body| <= MAX_RESPONSE
    && !Contains(tag + body, OpenTag(FAILURE))
  }

  lemma BodyNotFramed(tag: seq<Byte>, body: seq<Byte>)
    requires body != [] && (IsEmptyTag(tag) || !EndsElement(tag, body))
    ensures Reply(tag, body) != Upgraded([])
  {
    if !IsEmptyTag(tag) && Until(body, [CloseTag(PROCEED)]).Ok? {
      var (more, after) := Until(body, [CloseTag(PROCEED)]).value;
      if after == [] {
        assert more == body;
      }
    }
  }

  lemma NotFramed(features: seq<Byte>, reply: seq<Byte>)
    requires Dialogue(features + reply) != Upgraded([])
    ensures !IsFramed(features, reply)
  {
    assert reply + [] == reply;
    assert Dialogue(features + (reply + [])) != Upgraded([]);
  }

  /**
   * A reply is `<proceed`, text up to the first `>`, and a body. One with a body is framed just if
   * the text before that first `>` does not end in a slash and the body ends in the first
   * `</proceed>`, written without white space.
   */
  lemma PairedProceedExact(features: seq<Byte>, tag: seq<Byte>, start: seq<Byte>, gap: seq<Byte>, attributes: seq<Byte>, body: seq<Byte>)
    requires IsFeatures(features) && IsTag(tag, start, gap, attributes) && body != []
    ensures IsFramed(features, tag + body) <==> !IsEmptyTag(tag) && EndsElement(tag, body)
  {
    if !IsEmptyTag(tag) && EndsElement(tag, body) {
      forall rest ensures Dialogue(features + (tag + body + rest)) == Upgraded(rest) {
        PairedProceedFramed(features, tag, start, gap, attributes, body, rest);
      }
    } else {
      AfterTag(features, tag + body, tag, start, gap, attributes, body);
      BodyNotFramed(tag, body);
      NotFramed(features, tag + body);
    }
  }

  lemma NoMarkerWithoutOpen(text: seq<Byte>)
    requires OPEN !in text
    ensures Until(text, [CloseTag(PROCEED)]) == Err(if |text| <= MAX_RESPONSE then Closed else ResponseTooLong)
  {
    var close := CloseTag(PROCEED);
    forall k | 0 < k <= |text| ensures !EndsInMarker(text[..k], [close]) {
      if |close| <= k {
        LowerKeepsOpen(text[..k][k - |close|..], 0);
        LowerKeepsOpen(close, 0);
        assert text[k - |close|] in text;
      }
    }
  }

  lemma ReplyWithoutOpen(tag: seq<Byte>, after: seq<Byte>)
    requires OPEN !in after && |after| <= MAX_RESPONSE
    ensures Reply(tag, after) == if IsEmptyTag(tag) then Upgraded(after) else Refused(Closed)
  {
    NoMarkerWithoutOpen(after);
  }

  function FirstClose(text: seq<Byte>): (n: nat)
    requires CLOSE in text
    ensures n < |text| && text[n] == CLOSE && CLOSE !in text[..n]
  {
    if text[0] == CLOSE then 0 else 1 + FirstClose(text[1..])
  }

  /** Cutting attributes at their first `>`. */
  lemma CutAttributes(start: seq<Byte>, attributes: seq<Byte>, n: nat)
    requires n < |attributes| && attributes[n] == CLOSE
    ensures start + attributes + [SLASH, CLOSE]
         == (start + attributes[..n] + [CLOSE]) + (attributes[n + 1..] + [SLASH, CLOSE])
  {
    assert attributes == attributes[..n] + [CLOSE] + attributes[n + 1..];
  }

  lemma CutPieces(attributes: seq<Byte>, n: nat)
    requires n < |attributes| && OPEN !in attributes && CLOSE !in attributes[..n]
    ensures Plain(attributes[..n]) && OPEN !in attributes[n + 1..] + [SLASH, CLOSE]
  {
  }

  lemma CutReply(features: seq<Byte>, reply: seq<Byte>, start: seq<Byte>, gap: seq<Byte>, first: seq<Byte>, after: seq<Byte>)
    requires IsFeatures(features) && IsStart(start, gap) && Plain(first) && |first| < MAX_RESPONSE
    requires OPEN !in after && |after| <= MAX_RESPONSE && reply == (start + first + [CLOSE]) + after
    ensures Dialogue(features + reply) == if IsEmptyTag(start + first + [CLOSE]) then Upgraded(after) else Refused(Closed)
  {
    var tag := start + first + [CLOSE];
    ReplyWithoutOpen(tag, after);
    AfterTag(features, reply, tag, start, gap, first, after);
  }

  lemma NeverEnded(tag: seq<Byte>, after: seq<Byte>)
    requires OPEN !in after
    ensures !EndsElement(tag, after)
  {
    NoMarkerWithoutOpen(after);
  }

  lemma QuotedNotFramed(features: seq<Byte>, reply: seq<Byte>, start: seq<Byte>, gap: seq<Byte>, first: seq<Byte>, after: seq<Byte>)
    requires IsFeatures(features) && IsStart(start, gap) && Plain(first) && |first| < MAX_RESPONSE
    requires OPEN !in after && after != [] && reply == (start + first + [CLOSE]) + after
    ensures !IsFramed(features, reply)
  {
    var tag := start + first + [CLOSE];
    NeverEnded(tag, after);
    PairedProceedExact(features, tag, start, gap, first, after);
  }

  /**
   * An empty reply, its attributes free of `<` as in all XML, is framed just if no attribute value
   * has a `>` in it.
   */
  lemma EmptyProceedExact(features: seq<Byte>, start: seq<Byte>, gap: seq<Byte>, attributes: seq<Byte>)
    requires IsFeatures(features) && IsStart(start, gap) && OPEN !in attributes && |attributes| + 1 < MAX_RESPONSE
    ensures IsFramed(features, start + attributes + [47, 62]) <==> 62 !in attributes
  {
    var reply := start + attributes + [SLASH, CLOSE];
    if CLOSE in attributes {
      var n := FirstClose(attributes);
      CutAttributes(start, attributes, n);
      CutPieces(attributes, n);
      QuotedNotFramed(features, reply, start, gap, attributes[..n], attributes[n + 1..] + [SLASH, CLOSE]);
    } else {
      forall rest ensures Dialogue(features + (reply + rest)) == Upgraded(rest) {
        EmptyProceedFramed(features, start, gap, attributes, rest);
      }
    }
  }

  lemma PrintableEnd(s: seq<Byte>)
    requires s != [] && 33 <= s[|s| - 1] < 128
    ensures TrimEnd(s) == s
  {
    assert SpaceAtEnd(s) == 0;
  }

  lemma NotEmptyTag(text: seq<Byte>)
    requires text != [] && 33 <= text[|text| - 1] < 128 && text[|text| - 1] != SLASH
    ensures !IsEmptyTag(text + [CLOSE])
  {
    var s := text + [CLOSE];
    PrintableEnd(s);
    PrintableEnd(text);
    assert s[..|s| - 1] == text;
  }

  /** Well-formed XML in which a quoted `>` makes the reader wait for a closing tag that never comes. */
  lemma QuotedBracketRefused(features: seq<Byte>)
    requires IsFeatures(features)
    ensures Dialogue(features + Bytes("<proceed a='>'/>")) == Refused(Closed)
  {
    var start, first, after := Bytes("<proceed"), Bytes(" a='"), Bytes("'/>");
    QuotedPieces();
    NotEmptyTag(start + first);
    CutReply(features, Bytes("<proceed a='>'/>"), start, [], first, after);
  }

  lemma QuotedPieces()
    ensures Bytes("<proceed a='>'/>") == (Bytes("<proceed") + Bytes(" a='") + [CLOSE]) + Bytes("'/>")
    ensures IsStart(Bytes("<proceed"), []) && Plain(Bytes(" a='")) && OPEN !in Bytes("'/>")
  {
    var start := Bytes("<proceed");
    assert start[0..] == start && LowerBytes(start) == start;
  }

  lemma NoCloseEnd(s: seq<Byte>)
    requires |s| < 10 || s[|s| - 10] != OPEN || s[|s| - 1] != CLOSE
    ensures !EndsInMarker(s, [CloseTag(PROCEED)])
  {
    var close := CloseTag(PROCEED);
    assert |close| == 10 && close[9] == CLOSE && close[0] == OPEN;
    if |s| >= 10 {
      LowerKeepsOpen(s[|s| - 10..], 0);
      LowerKeepsOpen(s[|s| - 10..], 9);
      LowerKeepsOpen(close, 0);
      LowerKeepsOpen(close, 9);
    }
  }

  lemma SpacedCloseUnseen()
    ensures Until(Bytes("</proceed >"), [CloseTag(PROCEED)]) == Err(Closed)
  {
    var body := Bytes("</proceed >");
    assert |body| == 11 && body[9] == 32 && body[1] == SLASH;
    forall k | 0 < k <= 11 ensures !EndsInMarker(body[..k], [CloseTag(PROCEED)]) {
      NoCloseEnd(body[..k]);
    }
  }

  /** So is a closing tag with white space in it, which XML allows. */
  lemma SpacedCloseRefused(features: seq<Byte>)
    requires IsFeatures(features)
    ensures Dialogue(features + (Bytes("<proceed>") + Bytes("</proceed >"))) == Refused(Closed)
  {
    var start, tag, body := Bytes("<proceed"), Bytes("<proceed>"), Bytes("</proceed >");
    QuotedPieces();
    assert tag == start + [CLOSE] && start + [] == start;
    NotEmptyTag(start);
    SpacedCloseUnseen();
    UnendedReply(features, tag, start, body);
  }

  lemma UnendedReply(features: seq<Byte>, tag: seq<Byte>, start: seq<Byte>, body: seq<Byte>)
    requires IsFeatures(features) && IsTag(tag, start, [], []) && !IsEmptyTag(tag)
    requires Until(body, [CloseTag(PROCEED)]) == Err(Closed)
    ensures Dialogue(features + (tag + body)) == Refused(Closed)
  {
    AfterTag(features, tag + body, tag, start, [], [], body);
  }

  /** A features block of the kind assumed throughout. */
  lemma SomeFeatures()
    ensures IsFeatures(Bytes("starttls<stream:features/>"))
  {
    var f := Bytes("starttls<stream:features/>");
    var markers := FEATURE_MARKERS;
    assert |f| == 26 && f[8..] == markers[1] && f[..26] == f;
    assert EndsWith(f, markers[1]);
    forall k | 0 < k < 26 ensures !EndsInMarker(f[..k], markers) {
      if 18 <= k {
        NoOpenAt(f[..k], k - 18);
      }
    }
    assert f[0..8] == Bytes("starttls");
    assert MatchesAt(f, Bytes("starttls"), 0);
  }

  lemma NoOpenAt(s: seq<Byte>, i: nat)
    requires |s| == i + 18 && s[i] != OPEN
    ensures !EndsInMarker(s, FEATURE_MARKERS)
  {
    LowerKeepsOpen(s[i..], 0);
    forall m | m in FEATURE_MARKERS ensures !EndsWith(s, m) {
      assert |m| == 18 && m[0] == OPEN;
      LowerKeepsOpen(m, 0);
    }
  }

  /** The whole of what such a server sends, byte for byte. */
  lemma WellFormedReplyRefused()
    ensures Dialogue(Bytes("starttls<stream:features/>") + Bytes("<proceed a='>'/>")) == Refused(Closed)
  {
    SomeFeatures();
    QuotedBracketRefused(Bytes("starttls<stream:features/>"));
  }
}
