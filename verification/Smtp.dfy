/** SMTP replies and the STARTTLS dialogue (src/cert.rs). */
module Smtp {
  import opened Text
  import opened Wire

  const MAX_RESPONSE_LINES := 256
  const DASH: Byte := 45
  const SPACE: Byte := 32
  const PLUS: Byte := 43

  predicate IsDigits(s: seq<Byte>) {
    s != [] && forall i | 0 <= i < |s| :: 48 <= s[i] <= 57
  }

  function NumberOf(s: seq<Byte>): nat
    requires s == [] || IsDigits(s)
  {
    if s == [] then 0 else 10 * NumberOf(s[..|s| - 1]) + (s[|s| - 1] - 48)
  }

  /** `parse::<u16>` of three bytes: digits, or a plus sign and digits. */
  function ParseCode(s: seq<Byte>): Option<nat> {
    if IsDigits(s) then Some(NumberOf(s))
    else if |s| > 1 && s[0] == PLUS && IsDigits(s[1..]) then Some(NumberOf(s[1..]))
    else None
  }

  datatype LineOf = LineOf(code: nat, continued: bool, text: Option<seq<Byte>>)

  /** One line of a reply taken apart; slicing inside a character panics. */
  function SplitLine(line: seq<Byte>): Result<LineOf> {
    if |line| < 3 then Err(ShortReply)
    else if !IsBoundary(line, 3) then Err(Panic)
    else
      match ParseCode(line[..3])
      case None => Err(InvalidStatus)
      case Some(code) =>
        if |line| > 4 && !IsBoundary(line, 4) then Err(Panic)
        else Ok(LineOf(code, |line| > 3 && line[3] == DASH, if |line| > 4 then Some(line[4..]) else None))
  }

  function Join(messages: seq<seq<Byte>>): seq<Byte> {
    if messages == [] then []
    else if |messages| == 1 then messages[0]
    else messages[0] + [LF] + Join(messages[1..])
  }

  /** One message to a line. */
  lemma {:induction false} JoinSnoc(messages: seq<seq<Byte>>, last: seq<Byte>)
    ensures Join(messages + [last]) == if messages == [] then last else Join(messages) + [10] + last
  {
    if |messages| == 1 {
      assert (messages + [last])[1..] == [last] && Join([last]) == last;
    } else if messages != [] {
      JoinSnoc(messages[1..], last);
      assert (messages + [last])[1..] == messages[1..] + [last];
      Associative(messages[0] + [LF], Join(messages[1..]), [10] + last);
      Associative(Join(messages[1..]), [10], last);
      Associative(Join(messages), [10], last);
    }
  }

  datatype Reply = Reply(code: nat, text: seq<Byte>, rest: seq<Byte>)

  function Extended(messages: seq<seq<Byte>>, text: Option<seq<Byte>>): seq<seq<Byte>> {
    if text.Some? then messages + [text.value] else messages
  }

  /** What a reply starting here amounts to, with these texts read already. */
  function ReplyFrom(input: seq<Byte>, messages: seq<seq<Byte>>): Result<Reply>
    decreases |input|
  {
    if |messages| > MAX_RESPONSE_LINES then Err(TooManyLines)
    else
      match Line(input)
      case Err(e) => Err(e)
      case Ok((line, rest)) =>
        match SplitLine(line)
        case Err(e) => Err(e)
        case Ok(l) =>
          var more := Extended(messages, l.text);
          if l.continued then ReplyFrom(rest, more) else Ok(Reply(l.code, Join(more), rest))
  }

  method SmtpReadResponse(stream: Stream) returns (r: Result<(nat, seq<Byte>)>)
    modifies stream`input
    ensures match ReplyFrom(old(stream.input), [])
      case Ok(reply) => r == Ok((reply.code, reply.text)) && stream.input == reply.rest
      case Err(e) => r == Err(e)
  {
    var messages: seq<seq<Byte>> := [];
    while true
      invariant ReplyFrom(stream.input, messages) == ReplyFrom(old(stream.input), [])
      decreases |stream.input|
    {
      if |messages| > MAX_RESPONSE_LINES {
        return Err(TooManyLines);
      }
      ghost var input := stream.input;
      var read := ReadCrlfLine(stream);
      if read.Err? {
        return Err(read.error);
      }
      assert Line(input).Ok?;
      var split := SplitLine(read.value);
      if split.Err? {
        return Err(split.error);
      }
      messages := Extended(messages, split.value.text);
      if !split.value.continued {
        return Ok((split.value.code, Join(messages)));
      }
    }
  }

  // ---- round trip ----

  /** A reply in the form of section 4.2.1 of RFC 5321. */
  function Render(code: seq<Byte>, lines: seq<seq<Byte>>): seq<Byte>
    requires lines != []
  {
    if |lines| == 1 then code + [32] + lines[0] + [13, 10]
    else code + [45] + lines[0] + [13, 10] + Render(code, lines[1..])
  }

  predicate IsText(text: seq<Byte>) {
    text != [] && IsAscii(text) && CR !in text && LF !in text && |text| + 4 <= MAX_LINE
  }

  lemma SplitRendered(code: seq<Byte>, sep: Byte, text: seq<Byte>)
    requires |code| == 3 && IsDigits(code) && IsText(text) && (sep == SPACE || sep == DASH)
    ensures SplitLine(code + [sep] + text) == Ok(LineOf(NumberOf(code), sep == DASH, Some(text)))
  {
    var line := code + [sep] + text;
    assert line[..3] == code && line[4..] == text && line[3] == sep;
  }

  /** A code alone, or with a mark and no text: the dash still announces another line, and no text is kept. */
  lemma SplitBare(code: seq<Byte>)
    requires |code| == 3 && IsDigits(code)
    ensures SplitLine(code) == Ok(LineOf(NumberOf(code), false, None))
    ensures SplitLine(code + [32]) == Ok(LineOf(NumberOf(code), false, None))
    ensures SplitLine(code + [45]) == Ok(LineOf(NumberOf(code), true, None))
  {
    assert code[..3] == code && (code + [32])[..3] == code && (code + [45])[..3] == code;
  }

  lemma LineRendered(code: seq<Byte>, sep: Byte, text: seq<Byte>, rest: seq<Byte>)
    requires |code| == 3 && IsDigits(code) && IsText(text) && (sep == SPACE || sep == DASH)
    ensures Line(code + [sep] + text + [CR, LF] + rest) == Ok((code + [sep] + text, rest))
  {
    LineRoundTrip(code + [sep] + text, rest);
  }

  /** Reading one rendered line of a reply. */
  lemma ReplyLine(code: seq<Byte>, sep: Byte, text: seq<Byte>, tail: seq<Byte>, messages: seq<seq<Byte>>)
    requires |code| == 3 && IsDigits(code) && IsText(text) && (sep == SPACE || sep == DASH)
    requires |messages| <= MAX_RESPONSE_LINES
    ensures ReplyFrom(code + [sep] + text + [CR, LF] + tail, messages)
         == if sep == DASH then ReplyFrom(tail, messages + [text])
            else Ok(Reply(NumberOf(code), Join(messages + [text]), tail))
  {
    LineRendered(code, sep, text, tail);
    SplitRendered(code, sep, text);
  }

  lemma RenderMore(code: seq<Byte>, lines: seq<seq<Byte>>, rest: seq<Byte>)
    requires |lines| > 1
    ensures Render(code, lines) + rest == code + [DASH] + lines[0] + [CR, LF] + (Render(code, lines[1..]) + rest)
  {
  }

  lemma RoundTripLast(code: seq<Byte>, text: seq<Byte>, rest: seq<Byte>, messages: seq<seq<Byte>>)
    requires |code| == 3 && IsDigits(code) && IsText(text) && |messages| <= MAX_RESPONSE_LINES
    ensures ReplyFrom(Render(code, [text]) + rest, messages) == Ok(Reply(NumberOf(code), Join(messages + [text]), rest))
  {
    ReplyLine(code, SPACE, text, rest, messages);
  }

  lemma RoundTripMore(code: seq<Byte>, lines: seq<seq<Byte>>, rest: seq<Byte>, messages: seq<seq<Byte>>, r: Result<Reply>)
    requires |code| == 3 && IsDigits(code) && |lines| > 1 && IsText(lines[0]) && |messages| <= MAX_RESPONSE_LINES
    requires ReplyFrom(Render(code, lines[1..]) + rest, messages + [lines[0]]) == r
    ensures ReplyFrom(Render(code, lines) + rest, messages) == r
  {
    RenderMore(code, lines, rest);
    ReplyLine(code, DASH, lines[0], Render(code, lines[1..]) + rest, messages);
  }

  lemma TooMany(input: seq<Byte>, messages: seq<seq<Byte>>)
    requires |messages| > MAX_RESPONSE_LINES
    ensures ReplyFrom(input, messages) == Err(TooManyLines)
  {
  }

  /** What reading the rendered lines gives, with these texts read already. */
  function Expected(code: seq<Byte>, texts: seq<seq<Byte>>, rest: seq<Byte>): Result<Reply>
    requires IsDigits(code)
  {
    if |texts| <= MAX_RESPONSE_LINES + 1 then Ok(Reply(NumberOf(code), Join(texts), rest)) else Err(TooManyLines)
  }

  lemma {:induction false} RoundTripFrom(code: seq<Byte>, lines: seq<seq<Byte>>, rest: seq<Byte>, messages: seq<seq<Byte>>)
    requires |code| == 3 && IsDigits(code) && lines != [] && forall i | 0 <= i < |lines| :: IsText(lines[i])
    requires |messages| <= MAX_RESPONSE_LINES + 1
    ensures ReplyFrom(Render(code, lines) + rest, messages) == Expected(code, messages + lines, rest)
    decreases lines
  {
    if |messages| > MAX_RESPONSE_LINES {
      TooMany(Render(code, lines) + rest, messages);
    } else if |lines| == 1 {
      assert lines == [lines[0]];
      RoundTripLast(code, lines[0], rest, messages);
    } else {
      var more := messages + [lines[0]];
      assert messages + lines == more + lines[1..];
      RoundTripFrom(code, lines[1..], rest, more);
      RoundTripMore(code, lines, rest, messages, Expected(code, more + lines[1..], rest));
    }
  }

  /**
   * A reply of any number of lines is read back whole, nothing after its last line is touched,
   * and the only ones refused are those of more than 257 lines.
   */
  lemma ReplyRoundTrip(code: seq<Byte>, lines: seq<seq<Byte>>, rest: seq<Byte>)
    requires |code| == 3 && IsDigits(code) && lines != [] && forall i | 0 <= i < |lines| :: IsText(lines[i])
    ensures ReplyFrom(Render(code, lines) + rest, [])
         == if |lines| <= 257 then Ok(Reply(NumberOf(code), Join(lines), rest)) else Err(TooManyLines)
  {
    RoundTripFrom(code, lines, rest, []);
    assert [] + lines == lines;
  }

  /** However much a peer sends, the texts kept of one reply are at most 257, each within the line limit. */
  lemma {:induction false} TextIsBounded(input: seq<Byte>, messages: seq<seq<Byte>>)
    requires |messages| <= MAX_RESPONSE_LINES + 1 && forall i | 0 <= i < |messages| :: |messages[i]| <= MAX_LINE
    requires ReplyFrom(input, messages).Ok?
    ensures |ReplyFrom(input, messages).value.text| <= 257 * (MAX_LINE + 1)
    decreases |input|
  {
    var (line, rest) := Line(input).value;
    var l := SplitLine(line).value;
    var more := Extended(messages, l.text);
    if l.continued {
      TextIsBounded(rest, more);
    } else {
      JoinBounded(more);
    }
  }

  lemma {:induction false} JoinBounded(messages: seq<seq<Byte>>)
    requires forall i | 0 <= i < |messages| :: |messages[i]| <= MAX_LINE
    ensures |Join(messages)| <= |messages| * (MAX_LINE + 1)
  {
    if |messages| > 1 {
      JoinBounded(messages[1..]);
    }
  }

  // ---- while a reply is read ----

  /** What is left of the input and the texts held after so many lines that announce another one. */
  function AfterLines(input: seq<Byte>, messages: seq<seq<Byte>>, n: nat): Option<(seq<Byte>, seq<seq<Byte>>)> {
    if n == 0 then Some((input, messages))
    else if |messages| > MAX_RESPONSE_LINES then None
    else
      match Line(input)
      case Err(_) => None
      case Ok((line, rest)) =>
        match SplitLine(line)
        case Err(_) => None
        case Ok(l) => if l.continued then AfterLines(rest, Extended(messages, l.text), n - 1) else None
  }

  predicate AreWithin(messages: seq<seq<Byte>>) {
    |messages| <= MAX_RESPONSE_LINES + 1 && forall i | 0 <= i < |messages| :: |messages[i]| <= MAX_LINE
  }

  /** At every moment of reading a reply, accepted or refused in the end, the text held is bounded. */
  lemma {:induction false} HeldIsBounded(input: seq<Byte>, messages: seq<seq<Byte>>, n: nat)
    requires AreWithin(messages) && AfterLines(input, messages, n).Some?
    ensures var held := AfterLines(input, messages, n).value.1;
      AreWithin(held) && |Join(held)| <= 257 * (MAX_LINE + 1)
    decreases n
  {
    if n > 0 {
      var (line, rest) := Line(input).value;
      HeldIsBounded(rest, Extended(messages, SplitLine(line).value.text), n - 1);
    } else {
      JoinBounded(messages);
    }
  }

  // ---- when a reply is cut inside a character ----

  predicate IsTail(b: Byte) {
    0x80 <= b <= 0xBF
  }

  /** The fourth byte, or the fifth after a code, goes on with a character that the byte before began. */
  predicate CutsCharacter(line: seq<Byte>) {
    |line| > 3 && (IsTail(line[3]) || (|line| > 4 && IsTail(line[4]) && ParseCode(line[..3]).Some?))
  }

  lemma SplitPanics(line: seq<Byte>)
    ensures SplitLine(line) == Err(Panic) <==> CutsCharacter(line)
  {
  }

  /** A line that cuts a character comes after so many lines, with room for its text. */
  predicate CutsAt(input: seq<Byte>, messages: seq<seq<Byte>>, n: nat) {
    match AfterLines(input, messages, n)
    case None => false
    case Some((rest, held)) =>
      |held| <= MAX_RESPONSE_LINES && Line(rest).Ok? && CutsCharacter(Line(rest).value.0)
  }

  ghost predicate CutsSomewhere(input: seq<Byte>, messages: seq<seq<Byte>>) {
    exists n: nat :: CutsAt(input, messages, n)
  }

  /** Reading a reply panics just if one of its lines cuts a character. */
  lemma {:induction false} ReplyPanics(input: seq<Byte>, messages: seq<seq<Byte>>)
    ensures ReplyFrom(input, messages) == Err(Panic) <==> CutsSomewhere(input, messages)
    decreases |input|
  {
    CutsNow(input, messages);
    if |messages| <= MAX_RESPONSE_LINES && Line(input).Ok? {
      var (line, rest) := Line(input).value;
      SplitPanics(line);
      var split := SplitLine(line);
      if split.Ok? && split.value.continued {
        var more := Extended(messages, split.value.text);
        ReplyPanics(rest, more);
        CutsLater(input, messages, rest, more);
      }
    }
  }

  /** If the reply goes on after this line, it cuts a character here or later. */
  lemma CutsLater(input: seq<Byte>, messages: seq<seq<Byte>>, rest: seq<Byte>, more: seq<seq<Byte>>)
    requires |messages| <= MAX_RESPONSE_LINES && Line(input).Ok? && rest == Line(input).value.1
    requires var split := SplitLine(Line(input).value.0);
      split.Ok? && split.value.continued && more == Extended(messages, split.value.text)
    ensures CutsSomewhere(input, messages) <==> CutsSomewhere(rest, more)
  {
    SplitPanics(Line(input).value.0);
    if CutsSomewhere(input, messages) {
      var n: nat :| CutsAt(input, messages, n);
      assert n > 0 && CutsAt(rest, more, n - 1);
    }
    if CutsSomewhere(rest, more) {
      var n: nat :| CutsAt(rest, more, n);
      assert CutsAt(input, messages, n + 1);
    }
  }

  /** If the reply does not go on after this line, it cuts a character here or nowhere. */
  lemma CutsNow(input: seq<Byte>, messages: seq<seq<Byte>>)
    ensures CutsAt(input, messages, 0) ==> CutsSomewhere(input, messages)
    ensures AfterLines(input, messages, 1) == None && !CutsAt(input, messages, 0) ==> !CutsSomewhere(input, messages)
  {
    if AfterLines(input, messages, 1) == None && !CutsAt(input, messages, 0) && CutsSomewhere(input, messages) {
      var n: nat :| CutsAt(input, messages, n);
      NoneLater(input, messages, n);
    }
  }

  lemma NoneLater(input: seq<Byte>, messages: seq<seq<Byte>>, n: nat)
    requires AfterLines(input, messages, 1) == None && n > 0
    ensures AfterLines(input, messages, n) == None
  {
  }

  /** Replies in ASCII, as section 2.4 of RFC 5321 has them, never panic. */
  lemma {:induction false} AsciiNeverPanics(input: seq<Byte>, messages: seq<seq<Byte>>)
    requires IsAscii(input)
    ensures ReplyFrom(input, messages) != Err(Panic)
    ensures ReplyFrom(input, messages).Ok? ==> IsAscii(ReplyFrom(input, messages).value.rest)
    decreases |input|
  {
    if |messages| <= MAX_RESPONSE_LINES && Line(input).Ok? {
      LineAscii(input);
      var (line, rest) := Line(input).value;
      var split := SplitLine(line);
      if split.Ok? && split.value.continued {
        AsciiNeverPanics(rest, Extended(messages, split.value.text));
      }
    }
  }

  // ---- the dialogue ----

  datatype Outcome = Upgraded(rest: seq<Byte>) | Refused(error: Error)

  /** The reply that starts here, if it has this code. */
  function Expect(input: seq<Byte>, code: nat, error: Error): Result<seq<Byte>> {
    match ReplyFrom(input, [])
    case Err(e) => Err(e)
    case Ok(reply) => if reply.code == code then Ok(reply.rest) else Err(error)
  }

  function Dialogue(input: seq<Byte>): Outcome {
    match Expect(input, 220, BannerRejected)
    case Err(e) => Refused(e)
    case Ok(afterBanner) =>
      match Expect(afterBanner, 250, EhloRejected)
      case Err(e) => Refused(e)
      case Ok(afterEhlo) =>
        match Expect(afterEhlo, 220, StarttlsRejected)
        case Err(e) => Refused(e)
        case Ok(rest) => Upgraded(rest)
  }

  const CRLF: seq<Byte> := [13, 10]

  method SmtpCommand(stream: Stream, command: seq<Byte>) returns (r: Result<(nat, seq<Byte>)>)
    modifies stream
    ensures stream.output == old(stream.output) + command + CRLF
    ensures match ReplyFrom(old(stream.input), [])
      case Ok(reply) => r == Ok((reply.code, reply.text)) && stream.input == reply.rest
      case Err(e) => r == Err(e)
  {
    stream.WriteAll(command + CRLF);
    r := SmtpReadResponse(stream);
  }

  /** A command and the test of the code it is answered with. */
  method SmtpAsk(stream: Stream, command: seq<Byte>, code: nat, error: Error) returns (r: Result<()>)
    modifies stream
    ensures stream.output == old(stream.output) + command + CRLF
    ensures match Expect(old(stream.input), code, error)
      case Ok(rest) => r == Ok(()) && stream.input == rest
      case Err(e) => r == Err(e)
  {
    var reply := SmtpCommand(stream, command);
    if reply.Err? {
      return Err(reply.error);
    }
    r := if reply.value.0 != code then Err(error) else Ok(());
  }

  method SmtpNegotiate(stream: Stream, ehlo: seq<Byte>) returns (r: Result<()>)
    modifies stream
    ensures match Dialogue(old(stream.input))
      case Upgraded(rest) =>
        && r == Ok(()) && stream.input == rest
        && stream.output == old(stream.output) + (Bytes("EHLO ") + ehlo + [13, 10]) + (Bytes("STARTTLS") + [13, 10])
      case Refused(e) => r == Err(e)
  {
    var banner := SmtpReadResponse(stream);
    if banner.Err? {
      return Err(banner.error);
    }
    if banner.value.0 != 220 {
      return Err(BannerRejected);
    }
    r := SmtpAsk(stream, Bytes("EHLO ") + ehlo, 250, EhloRejected);
    if r.Ok? {
      r := SmtpAsk(stream, Bytes("STARTTLS"), 220, StarttlsRejected);
    }
  }

  ghost predicate IsReply(lines: seq<seq<Byte>>) {
    1 <= |lines| <= 257 && forall i | 0 <= i < |lines| :: IsText(lines[i])
  }

  /** A server that greets, lists its extensions and goes ahead is upgraded; the first TLS byte stays unread. */
  lemma WillingServerUpgrades(banner: seq<seq<Byte>>, hello: seq<seq<Byte>>, start: seq<seq<Byte>>, rest: seq<Byte>)
    requires IsReply(banner) && IsReply(hello) && IsReply(start)
    ensures Dialogue(Render(Bytes("220"), banner) + (Render(Bytes("250"), hello) + (Render(Bytes("220"), start) + rest)))
         == Upgraded(rest)
  {
    Codes();
    CodesDecide(Bytes("220"), banner, Bytes("250"), hello, Bytes("220"), start, rest);
  }

  lemma Codes()
    ensures Bytes("220") == [50, 50, 48] && Bytes("250") == [50, 53, 48]
    ensures IsDigits(Bytes("220")) && NumberOf(Bytes("220")) == 220
    ensures IsDigits(Bytes("250")) && NumberOf(Bytes("250")) == 250
  {
    assert Bytes("220") == [50, 50, 48] && Bytes("250") == [50, 53, 48];
    assert [50, 50, 48][..2] == [50, 50] && [50, 50][..1] == [50] && [50][..0] == [];
    assert [50, 53, 48][..2] == [50, 53] && [50, 53][..1] == [50];
    assert NumberOf([50]) == 2;
    assert NumberOf([50, 50]) == 22 && NumberOf([50, 53]) == 25;
  }

  predicate IsCode(code: seq<Byte>) {
    |code| == 3 && IsDigits(code)
  }

  /** The number of a three-digit code, written out. */
  lemma CodeNumber(code: seq<Byte>)
    requires IsCode(code)
    ensures NumberOf(code) == 100 * (code[0] as int - 48) + 10 * (code[1] as int - 48) + (code[2] as int - 48)
  {
    var two := code[..2];
    assert IsDigits(two) && two[..1] == [code[0]] && IsDigits([code[0]]);
    assert [code[0]][..0] == [] && NumberOf([code[0]]) == code[0] - 48;
    assert NumberOf(two) == 10 * NumberOf(two[..1]) + (two[1] - 48);
  }

  predicate IsDigit(b: Byte) {
    48 <= b <= 57
  }

  /** What the first three bytes of a reply are read as: three digits, or a plus sign and two, and nothing else. */
  lemma CodeExactly(s: seq<Byte>)
    requires |s| == 3
    ensures ParseCode(s) ==
      if IsDigit(s[0]) && IsDigit(s[1]) && IsDigit(s[2])
      then Some(100 * (s[0] as int - 48) + 10 * (s[1] as int - 48) + (s[2] as int - 48))
      else if s[0] == 43 && IsDigit(s[1]) && IsDigit(s[2]) then Some(10 * (s[1] as int - 48) + (s[2] as int - 48))
      else None
  {
    if IsDigits(s) {
      CodeNumber(s);
    } else if s[0] == 43 && IsDigits(s[1..]) {
      var two := s[1..];
      assert two == [s[1], s[2]] && two[..1] == [s[1]] && two[..1][..0] == [];
      assert NumberOf(two[..1]) == s[1] as int - 48;
    }
    assert IsDigits(s[1..]) <==> IsDigit(s[1..][0]) && IsDigit(s[1..][1]);
  }

  lemma CodesAre(code: seq<Byte>)
    requires IsCode(code)
    ensures NumberOf(code) == 220 <==> code == [50, 50, 48]
    ensures NumberOf(code) == 250 <==> code == [50, 53, 48]
  {
    CodeNumber(code);
    assert code == [code[0], code[1], code[2]];
  }

  lemma ExpectRendered(code: seq<Byte>, lines: seq<seq<Byte>>, rest: seq<Byte>, wanted: nat, error: Error)
    requires IsCode(code) && IsReply(lines)
    ensures Expect(Render(code, lines) + rest, wanted, error) == if NumberOf(code) == wanted then Ok(rest) else Err(error)
  {
    ReplyRoundTrip(code, lines, rest);
  }

  /**
   * With replies of any three-digit codes: the connection is upgraded if they are 220, 250 and 220, and
   * otherwise refused with the error of the first that differs.
   */
  lemma CodesDecide(banner: seq<Byte>, bannerLines: seq<seq<Byte>>, hello: seq<Byte>, helloLines: seq<seq<Byte>>,
      start: seq<Byte>, startLines: seq<seq<Byte>>, rest: seq<Byte>)
    requires IsCode(banner) && IsCode(hello) && IsCode(start)
    requires IsReply(bannerLines) && IsReply(helloLines) && IsReply(startLines)
    ensures Dialogue(Render(banner, bannerLines) + (Render(hello, helloLines) + (Render(start, startLines) + rest)))
         == if banner != [50, 50, 48] then Refused(BannerRejected)
            else if hello != [50, 53, 48] then Refused(EhloRejected)
            else if start != [50, 50, 48] then Refused(StarttlsRejected)
            else Upgraded(rest)
  {
    CodesAre(banner);
    CodesAre(hello);
    CodesAre(start);
    var afterEhlo := Render(start, startLines) + rest;
    var afterBanner := Render(hello, helloLines) + afterEhlo;
    ExpectRendered(banner, bannerLines, afterBanner, 220, BannerRejected);
    ExpectRendered(hello, helloLines, afterEhlo, 250, EhloRejected);
    ExpectRendered(start, startLines, rest, 220, StarttlsRejected);
  }

  /** No dialogue in ASCII panics. */
  lemma AsciiDialogue(input: seq<Byte>)
    requires IsAscii(input)
    ensures Dialogue(input) != Refused(Panic)
  {
    AsciiNeverPanics(input, []);
    if Expect(input, 220, BannerRejected).Ok? {
      var afterBanner := Expect(input, 220, BannerRejected).value;
      AsciiNeverPanics(afterBanner, []);
      if Expect(afterBanner, 250, EhloRejected).Ok? {
        AsciiNeverPanics(Expect(afterBanner, 250, EhloRejected).value, []);
      }
    }
  }

  /** A greeting of `220` and an accented letter panics, whatever follows. */
  lemma AccentedGreetingPanics(rest: seq<Byte>)
    ensures Dialogue([50, 50, 48, 0xC3, 0xA9, CR, LF] + rest) == Refused(Panic)
  {
    var line: seq<Byte> := [50, 50, 48, 0xC3, 0xA9];
    var input := [50, 50, 48, 0xC3, 0xA9, CR, LF] + rest;
    AccentedIsUtf8(line);
    Utf8RoundTrip(line, rest);
    assert input == line + [CR, LF] + rest;
    Codes();
    assert line[..3] == Bytes("220");
    SplitPanics(line);
  }

  lemma AccentedIsUtf8(line: seq<Byte>)
    requires line == [50, 50, 48, 0xC3, 0xA9]
    ensures ValidUtf8(line)
  {
    assert line[1..] == [50, 48, 0xC3, 0xA9] && line[1..][1..] == [48, 0xC3, 0xA9];
    assert line[1..][1..][1..] == [0xC3, 0xA9];
    var last: seq<Byte> := [0xC3, 0xA9];
    assert CharLength(last) == 2 && last[2..] == [] && ValidUtf8(last);
    assert ValidUtf8([48, 0xC3, 0xA9]);
  }
}
