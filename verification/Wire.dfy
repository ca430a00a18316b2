/** Byte streams to a peer, and reading lines from them (src/cert.rs). */
module Wire {
  import opened Text

  const LF: Byte := 10
  const CR: Byte := 13

  /** ASCII text as bytes. */
  function Bytes(s: string): (r: seq<Byte>)
    ensures |r| == |s|
  {
    seq(|s|, i requires 0 <= i < |s| => if s[i] as int < 128 then s[i] as int else 63)
  }

  function LowerByte(b: Byte): Byte {
    if 65 <= b <= 90 then b + 32 else b
  }

  function LowerBytes(s: seq<Byte>): (r: seq<Byte>)
    ensures |r| == |s|
  {
    seq(|s|, i requires 0 <= i < |s| => LowerByte(s[i]))
  }

  predicate SameByte(a: Byte, b: Byte) {
    a == b || (65 <= a <= 90 && b == a + 32) || (65 <= b <= 90 && a == b + 32)
  }

  /** Bytes equal ignoring case: of one length, with the same ASCII letters, and everything else the same. */
  lemma EqualBytes(a: seq<Byte>, b: seq<Byte>)
    ensures LowerBytes(a) == LowerBytes(b) <==> |a| == |b| && forall i | 0 <= i < |a| :: SameByte(a[i], b[i])
  {
    if LowerBytes(a) == LowerBytes(b) {
      forall i | 0 <= i < |a| ensures SameByte(a[i], b[i]) {
        assert LowerBytes(a)[i] == LowerBytes(b)[i];
      }
    } else if |a| == |b| {
      var i :| 0 <= i < |a| && LowerBytes(a)[i] != LowerBytes(b)[i];
      assert !SameByte(a[i], b[i]);
    }
  }

  /** ASCII text goes out as it is. */
  lemma BytesAre(s: string, i: nat)
    requires i < |s| && s[i] < 128 as char
    ensures Bytes(s)[i] == s[i] as int
  {
  }

  /** A connection: the bytes still to come before it closes or its time is up, and those sent. */
  class Stream {
    var input: seq<Byte>
    var output: seq<Byte>

    method ReadByte() returns (b: Option<Byte>)
      modifies this`input
      ensures if old(input) == [] then b == None && input == [] else b == Some(old(input)[0]) && input == old(input)[1..]
    {
      if input == [] {
        b := None;
      } else {
        b := Some(input[0]);
        input := input[1..];
      }
    }

    method WriteAll(data: seq<Byte>)
      modifies this`output
      ensures output == old(output) + data
    {
      output := output + data;
    }
  }

  datatype Error =
    | Closed | LineTooLong | ResponseTooLong | NotUtf8 | ShortReply | InvalidStatus | TooManyLines
    | BannerRejected | EhloRejected | StarttlsRejected | NoStarttls | Bye
    /** A string is cut inside a character. */
    | Panic

  datatype Result<+T> = Ok(value: T) | Err(error: Error)

  // ---- UTF-8 ----

  predicate Continues(s: seq<Byte>, from: nat, n: nat) {
    from + n <= |s| && forall i | from <= i < from + n :: 0x80 <= s[i] <= 0xBF
  }

  /** Length of the well-formed character at the start, or 0. */
  function CharLength(s: seq<Byte>): (n: nat)
    requires s != []
    ensures n <= |s|
  {
    var b := s[0];
    if b < 0x80 then 1
    else if 0xC2 <= b <= 0xDF && Continues(s, 1, 1) then 2
    else if 0xE0 <= b <= 0xEF && Continues(s, 1, 2) && (b == 0xE0 ==> 0xA0 <= s[1]) && (b == 0xED ==> s[1] <= 0x9F) then 3
    else if 0xF0 <= b <= 0xF4 && Continues(s, 1, 3) && (b == 0xF0 ==> 0x90 <= s[1]) && (b == 0xF4 ==> s[1] <= 0x8F) then 4
    else 0
  }

  predicate ValidUtf8(s: seq<Byte>) {
    s == [] || (CharLength(s) > 0 && ValidUtf8(s[CharLength(s)..]))
  }

  predicate IsAscii(s: seq<Byte>) {
    forall i | 0 <= i < |s| :: s[i] < 0x80
  }

  lemma {:induction false} AsciiIsUtf8(s: seq<Byte>)
    requires IsAscii(s)
    ensures ValidUtf8(s)
  {
    if s != [] {
      AsciiIsUtf8(s[1..]);
    }
  }

  /** A string may be cut here only between characters. */
  predicate IsBoundary(s: seq<Byte>, at: nat) {
    at == |s| || (at < |s| && !(0x80 <= s[at] <= 0xBF))
  }

  // ---- lines ----

  /** Where the first LF is, or the length. */
  function LineEnd(s: seq<Byte>): (n: nat)
    ensures n <= |s| && (forall i | 0 <= i < n :: s[i] != LF) && (n < |s| ==> s[n] == LF)
  {
    if s == [] || s[0] == LF then 0 else 1 + LineEnd(s[1..])
  }

  function WithoutCr(s: seq<Byte>): (r: seq<Byte>)
    ensures |r| <= |s|
  {
    if s == [] then [] else (if s[0] == CR then [] else [s[0]]) + WithoutCr(s[1..])
  }

  lemma {:induction false} WithoutCrSnoc(s: seq<Byte>, b: Byte)
    ensures WithoutCr(s + [b]) == WithoutCr(s) + (if b == CR then [] else [b])
  {
    if s == [] {
      assert s + [b] == [b];
    } else {
      WithoutCrSnoc(s[1..], b);
      assert (s + [b])[1..] == s[1..] + [b];
      var head: seq<Byte>, mid, last: seq<Byte> := if s[0] == CR then [] else [s[0]], WithoutCr(s[1..]), if b == CR then [] else [b];
      assert WithoutCr(s + [b]) == head + (mid + last) == (head + mid) + last;
    }
  }

  lemma {:induction false} NoCr(s: seq<Byte>)
    requires CR !in s
    ensures WithoutCr(s) == s
  {
    if s != [] {
      NoCr(s[1..]);
    }
  }

  const MAX_LINE := 8192

  /** A line taken from what the peer sends: its text and what comes after its LF. */
  function Line(input: seq<Byte>): Result<(seq<Byte>, seq<Byte>)> {
    var end := LineEnd(input);
    var text := WithoutCr(input[..end]);
    if |text| > MAX_LINE then Err(LineTooLong)
    else if end == |input| then Err(Closed)
    else if !ValidUtf8(text) then Err(NotUtf8)
    else Ok((text, input[end + 1..]))
  }

  lemma {:induction false} LineEndWithin(s: seq<Byte>, n: nat)
    requires n <= |s| && forall i | 0 <= i < n :: s[i] != LF
    requires n < |s| ==> s[n] == LF
    ensures LineEnd(s) == n
  {
  }

  lemma {:induction false} WithoutCrGrows(s: seq<Byte>, n: nat)
    requires n <= |s|
    ensures |WithoutCr(s[..n])| <= |WithoutCr(s)|
    decreases |s| - n
  {
    if n < |s| {
      WithoutCrGrows(s, n + 1);
      assert s[..n + 1] == s[..n] + [s[n]];
      WithoutCrSnoc(s[..n], s[n]);
    } else {
      assert s[..n] == s;
    }
  }

  /** Byte by byte: exactly the bytes up to the LF are taken from the stream. */
  method ReadCrlfLine(stream: Stream) returns (r: Result<seq<Byte>>)
    modifies stream`input
    ensures match Line(old(stream.input))
      case Ok((text, rest)) => r == Ok(text) && stream.input == rest
      case Err(error) => r == Err(error)
  {
    var line: seq<Byte> := [];
    ghost var all := stream.input;
    ghost var n := 0;
    while true
      invariant n <= |all| && stream.input == all[n..] && forall i | 0 <= i < n :: all[i] != LF
      invariant line == WithoutCr(all[..n]) && |line| <= MAX_LINE
      decreases |all| - n
    {
      var byte := stream.ReadByte();
      if byte == None {
        LineEndWithin(all, n);
        return Err(Closed);
      }
      if byte.value == LF {
        LineEndWithin(all, n);
        break;
      }
      assert all[..n + 1] == all[..n] + [all[n]];
      WithoutCrSnoc(all[..n], all[n]);
      n := n + 1;
      if byte.value != CR {
        line := line + [byte.value];
      }
      if |line| > MAX_LINE {
        WithoutCrGrows(all[..LineEnd(all)], n);
        assert all[..LineEnd(all)][..n] == all[..n];
        return Err(LineTooLong);
      }
    }
    if !ValidUtf8(line) {
      return Err(NotUtf8);
    }
    r := Ok(line);
  }

  /** Text without CR or LF, sent with CRLF, comes back as it is and leaves what follows. */
  lemma Utf8RoundTrip(text: seq<Byte>, rest: seq<Byte>)
    requires ValidUtf8(text) && CR !in text && LF !in text && |text| <= MAX_LINE
    ensures Line(text + [CR, LF] + rest) == Ok((text, rest))
  {
    SentWithCr(text);
    SentLine(text, rest);
    LineOf(text + [CR, LF] + rest, text + [CR], text, rest);
  }

  lemma SentWithCr(text: seq<Byte>)
    requires CR !in text
    ensures WithoutCr(text + [CR]) == text
  {
    NoCr(text);
    WithoutCrSnoc(text, CR);
  }

  lemma SentLine(text: seq<Byte>, rest: seq<Byte>)
    ensures text + [CR, LF] + rest == (text + [CR]) + ([LF] + rest)
  {
  }

  lemma LineOf(s: seq<Byte>, body: seq<Byte>, text: seq<Byte>, rest: seq<Byte>)
    requires s == body + ([LF] + rest) && LF !in body && WithoutCr(body) == text
    requires ValidUtf8(text) && |text| <= MAX_LINE
    ensures Line(s) == Ok((text, rest))
  {
    FirstLine(body, rest);
  }

  lemma FirstLine(body: seq<Byte>, rest: seq<Byte>)
    requires LF !in body
    ensures LineEnd(body + ([LF] + rest)) == |body|
    ensures (body + ([LF] + rest))[..|body|] == body && (body + ([LF] + rest))[|body| + 1..] == rest
  {
    LineEndWithin(body + ([LF] + rest), |body|);
  }

  lemma LineRoundTrip(text: seq<Byte>, rest: seq<Byte>)
    requires IsAscii(text) && CR !in text && LF !in text && |text| <= MAX_LINE
    ensures Line(text + [CR, LF] + rest) == Ok((text, rest))
  {
    AsciiIsUtf8(text);
    Utf8RoundTrip(text, rest);
  }

  /** With the literal limit: a line of that many bytes is read and a longer one is refused, whatever it holds. */
  lemma LimitExactly(text: seq<Byte>, rest: seq<Byte>)
    requires ValidUtf8(text) && 13 !in text && 10 !in text
    ensures Line(text + [13, 10] + rest) == if |text| <= 8192 then Ok((text, rest)) else Err(LineTooLong)
  {
    SentWithCr(text);
    SentLine(text, rest);
    FirstLine(text + [CR], rest);
  }

  lemma {:induction false} WithoutCrAscii(s: seq<Byte>)
    requires IsAscii(s)
    ensures IsAscii(WithoutCr(s))
  {
    if s != [] {
      WithoutCrAscii(s[1..]);
    }
  }

  lemma LineAscii(input: seq<Byte>)
    requires IsAscii(input) && Line(input).Ok?
    ensures IsAscii(Line(input).value.0) && IsAscii(Line(input).value.1)
  {
    WithoutCrAscii(input[..LineEnd(input)]);
  }
}
