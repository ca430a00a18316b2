/** The IMAP and POP3 STARTTLS dialogues (src/cert.rs). */
module MailStores {
  import opened Text
  import opened Wire
  import Xmpp

  const MAX_RESPONSE_LINES := 256
  const CRLF: seq<Byte> := [13, 10]

  datatype Outcome = Upgraded(rest: seq<Byte>) | Refused(error: Error)

  /** `starts_with`, in any letter case. */
  predicate Starts(line: seq<Byte>, prefix: string) {
    LowerBytes(Bytes(prefix)) <= LowerBytes(line)
  }

  predicate SaysBye(greeting: seq<Byte>) {
    Xmpp.Contains(LowerBytes(greeting), LowerBytes(Bytes(" BYE")))
  }

  /** What the lines after the STARTTLS command come to, with so many of them read already. */
  function ImapAnswer(input: seq<Byte>, read: nat): Outcome
    requires read <= MAX_RESPONSE_LINES
    decreases MAX_RESPONSE_LINES - read
  {
    if read == MAX_RESPONSE_LINES then Refused(TooManyLines)
    else
      match Line(input)
      case Err(e) => Refused(e)
      case Ok((line, rest)) =>
        if Starts(line, "A001 ") then (if Starts(line, "A001 OK") then Upgraded(rest) else Refused(StarttlsRejected))
        else if Starts(line, "* BYE") then Refused(Bye)
        else ImapAnswer(rest, read + 1)
  }

  function ImapDialogue(input: seq<Byte>): Outcome {
    match Line(input)
    case Err(e) => Refused(e)
    case Ok((greeting, rest)) =>
      if !Starts(greeting, "* ") then Refused(BannerRejected)
      else if SaysBye(greeting) then Refused(Bye)
      else ImapAnswer(rest, 0)
  }

  method ImapNegotiate(stream: Stream) returns (r: Result<()>)
    modifies stream
    ensures match ImapDialogue(old(stream.input))
      case Upgraded(rest) =>
        r == Ok(()) && stream.input == rest && stream.output == old(stream.output) + (Bytes("a001 STARTTLS") + [13, 10])
      case Refused(e) => r == Err(e)
  {
    var greeting := ReadCrlfLine(stream);
    if greeting.Err? {
      return Err(greeting.error);
    }
    if !Starts(greeting.value, "* ") {
      return Err(BannerRejected);
    }
    if SaysBye(greeting.value) {
      return Err(Bye);
    }
    stream.WriteAll(Bytes("a001 STARTTLS") + CRLF);
    for n := 0 to MAX_RESPONSE_LINES
      invariant ImapAnswer(stream.input, n) == ImapDialogue(old(stream.input))
      invariant stream.output == old(stream.output) + (Bytes("a001 STARTTLS") + CRLF)
    {
      var line := ReadCrlfLine(stream);
      if line.Err? {
        return Err(line.error);
      }
      if Starts(line.value, "A001 ") {
        return if Starts(line.value, "A001 OK") then Ok(()) else Err(StarttlsRejected);
      }
      if Starts(line.value, "* BYE") {
        return Err(Bye);
      }
    }
    r := Err(TooManyLines);
  }

  function Pop3Dialogue(input: seq<Byte>): Outcome {
    match Line(input)
    case Err(e) => Refused(e)
    case Ok((greeting, rest)) =>
      if !(Bytes("+OK") <= greeting) then Refused(BannerRejected)
      else
        match Line(rest)
        case Err(e) => Refused(e)
        case Ok((answer, after)) => if Bytes("+OK") <= answer then Upgraded(after) else Refused(StarttlsRejected)
  }

  method Pop3Negotiate(stream: Stream) returns (r: Result<()>)
    modifies stream
    ensures match Pop3Dialogue(old(stream.input))
      case Upgraded(rest) =>
        r == Ok(()) && stream.input == rest && stream.output == old(stream.output) + (Bytes("STLS") + [13, 10])
      case Refused(e) => r == Err(e)
  {
    var greeting := ReadCrlfLine(stream);
    if greeting.Err? {
      return Err(greeting.error);
    }
    if !(Bytes("+OK") <= greeting.value) {
      return Err(BannerRejected);
    }
    stream.WriteAll(Bytes("STLS") + CRLF);
    var answer := ReadCrlfLine(stream);
    if answer.Err? {
      return Err(answer.error);
    }
    r := if Bytes("+OK") <= answer.value then Ok(()) else Err(StarttlsRejected);
  }

  // ---- a server that answers is upgraded ----

  predicate IsLine(text: seq<Byte>) {
    IsAscii(text) && CR !in text && LF !in text && |text| <= MAX_LINE
  }

  /** Neither the answer nor a farewell. */
  predicate IsUntagged(text: seq<Byte>) {
    IsLine(text) && !Starts(text, "A001 ") && !Starts(text, "* BYE")
  }

  function Sent(lines: seq<seq<Byte>>): seq<Byte> {
    if lines == [] then [] else lines[0] + CRLF + Sent(lines[1..])
  }

  lemma SentCons(lines: seq<seq<Byte>>, tail: seq<Byte>)
    requires lines != []
    ensures Sent(lines) + tail == lines[0] + CRLF + (Sent(lines[1..]) + tail)
  {
    Associative(lines[0] + CRLF, Sent(lines[1..]), tail);
  }

  lemma AnswerStep(text: seq<Byte>, tail: seq<Byte>, read: nat)
    requires IsUntagged(text) && read < MAX_RESPONSE_LINES
    ensures ImapAnswer(text + CRLF + tail, read) == ImapAnswer(tail, read + 1)
  {
    LineRoundTrip(text, tail);
  }

  /** What the line that ends it comes to. */
  function Decided(answer: seq<Byte>, rest: seq<Byte>): Outcome {
    if Starts(answer, "A001 OK") then Upgraded(rest)
    else if Starts(answer, "A001 ") then Refused(StarttlsRejected)
    else Refused(Bye)
  }

  lemma OkIsTagged(answer: seq<Byte>)
    requires Starts(answer, "A001 OK")
    ensures Starts(answer, "A001 ") && !IsUntagged(answer)
  {
    assert Bytes("A001 OK")[..5] == Bytes("A001 ");
    assert LowerBytes(Bytes("A001 OK"))[..5] == LowerBytes(Bytes("A001 "));
  }

  lemma AnswerLast(answer: seq<Byte>, rest: seq<Byte>, read: nat)
    requires IsLine(answer) && !IsUntagged(answer) && read < MAX_RESPONSE_LINES
    ensures ImapAnswer(answer + CRLF + rest, read) == Decided(answer, rest)
  {
    LineRoundTrip(answer, rest);
    if Starts(answer, "A001 OK") {
      OkIsTagged(answer);
    }
  }

  /** Untagged lines are passed over, up to 255 of them; what follows the answer stays unread. */
  lemma {:induction false} ImapFramed(lines: seq<seq<Byte>>, answer: seq<Byte>, rest: seq<Byte>, read: nat)
    requires (forall i | 0 <= i < |lines| :: IsUntagged(lines[i])) && IsLine(answer) && !IsUntagged(answer)
    requires read <= MAX_RESPONSE_LINES
    ensures ImapAnswer(Sent(lines) + (answer + CRLF + rest), read)
         == if read + |lines| < MAX_RESPONSE_LINES then Decided(answer, rest) else Refused(TooManyLines)
    decreases lines
  {
    var tail := answer + CRLF + rest;
    if read == MAX_RESPONSE_LINES {
    } else if lines == [] {
      assert Sent(lines) + tail == tail;
      AnswerLast(answer, rest, read);
    } else {
      SentCons(lines, tail);
      AnswerStep(lines[0], Sent(lines[1..]) + tail, read);
      ImapFramed(lines[1..], answer, rest, read + 1);
    }
  }

  /**
   * After a greeting, the first line that is tagged or a farewell decides, if no more than 255 others come
   * before it: `A001 OK`, in any case, is an upgrade and no other line is.
   */
  lemma ImapDecides(greeting: seq<Byte>, lines: seq<seq<Byte>>, answer: seq<Byte>, rest: seq<Byte>)
    requires IsLine(greeting) && Starts(greeting, "* ") && !SaysBye(greeting)
    requires (forall i | 0 <= i < |lines| :: IsUntagged(lines[i])) && IsLine(answer) && !IsUntagged(answer)
    ensures ImapDialogue(greeting + CRLF + (Sent(lines) + (answer + CRLF + rest)))
         == if |lines| > 255 then Refused(TooManyLines)
            else if Starts(answer, "A001 OK") then Upgraded(rest)
            else if Starts(answer, "A001 ") then Refused(StarttlsRejected)
            else Refused(Bye)
  {
    LineRoundTrip(greeting, Sent(lines) + (answer + CRLF + rest));
    ImapFramed(lines, answer, rest, 0);
  }

  /** A server that greets and answers is upgraded exactly if it sends no more than 255 untagged lines before the answer. */
  lemma WillingImapServer(greeting: seq<Byte>, lines: seq<seq<Byte>>, answer: seq<Byte>, rest: seq<Byte>)
    requires IsLine(greeting) && Starts(greeting, "* ") && !SaysBye(greeting)
    requires (forall i | 0 <= i < |lines| :: IsUntagged(lines[i])) && IsLine(answer) && Starts(answer, "A001 OK")
    ensures ImapDialogue(greeting + CRLF + (Sent(lines) + (answer + CRLF + rest)))
         == if |lines| <= 255 then Upgraded(rest) else Refused(TooManyLines)
  {
    OkIsTagged(answer);
    ImapDecides(greeting, lines, answer, rest);
  }

  lemma WillingPop3Server(greeting: seq<Byte>, answer: seq<Byte>, rest: seq<Byte>)
    requires IsLine(greeting) && Bytes("+OK") <= greeting && IsLine(answer)
    ensures Pop3Dialogue(greeting + CRLF + (answer + CRLF + rest))
         == if Bytes("+OK") <= answer then Upgraded(rest) else Refused(StarttlsRejected)
  {
    LineRoundTrip(greeting, answer + CRLF + rest);
    LineRoundTrip(answer, rest);
  }

  // ---- and what refuses it ----

  /** A line starts with a text if its bytes are those of the text, in any case. */
  lemma StartsMeans(line: seq<Byte>, prefix: string)
    ensures Starts(line, prefix) <==>
      |prefix| <= |line| && forall i | 0 <= i < |prefix| :: SameByte(line[i], Bytes(prefix)[i])
  {
    if |prefix| <= |line| {
      var head := line[..|prefix|];
      assert LowerBytes(line)[..|prefix|] == LowerBytes(head);
      EqualBytes(head, Bytes(prefix));
    }
  }

  lemma ByeMeans(greeting: seq<Byte>)
    ensures SaysBye(greeting) <==> exists i | 0 <= i <= |greeting| - 4 :: Starts(greeting[i..], " BYE")
  {
    var lower, bye := LowerBytes(greeting), LowerBytes(Bytes(" BYE"));
    assert LowerBytes(bye) == bye && LowerBytes(lower) == lower;
    forall i | 0 <= i <= |greeting| - 4 ensures Xmpp.MatchesAt(lower, bye, i) <==> Starts(greeting[i..], " BYE") {
      assert LowerBytes(lower[i..i + 4]) == lower[i..i + 4] == LowerBytes(greeting[i..])[..4];
    }
    if SaysBye(greeting) {
      var i :| 0 <= i <= |lower| - |bye| && Xmpp.MatchesAt(lower, bye, i);
      assert Starts(greeting[i..], " BYE");
    }
    if i :| 0 <= i <= |greeting| - 4 && Starts(greeting[i..], " BYE") {
      assert Xmpp.MatchesAt(lower, bye, i);
    }
  }

  /** A greeting of another kind, or one that says goodbye, ends it before the command is sent. */
  lemma ImapGreets(greeting: seq<Byte>, tail: seq<Byte>)
    requires IsLine(greeting)
    ensures !Starts(greeting, "* ") ==> ImapDialogue(greeting + CRLF + tail) == Refused(BannerRejected)
    ensures Starts(greeting, "* ") && SaysBye(greeting) ==> ImapDialogue(greeting + CRLF + tail) == Refused(Bye)
  {
    LineRoundTrip(greeting, tail);
  }

  lemma Pop3Greets(greeting: seq<Byte>, tail: seq<Byte>)
    requires IsLine(greeting) && !(Bytes("+OK") <= greeting)
    ensures Pop3Dialogue(greeting + CRLF + tail) == Refused(BannerRejected)
  {
    LineRoundTrip(greeting, tail);
  }
}
