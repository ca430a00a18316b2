/** Hexadecimal text of certificate data: always written in lower case, read in either. */
module Hex {
  import opened Text

  function Digit(n: nat): char
    requires n < 16
  {
    "0123456789abcdef"[n]
  }

  function Value(c: char): Option<nat> {
    if '0' <= c <= '9' then Some(c as nat - '0' as nat)
    else if 'a' <= c <= 'f' then Some(c as nat - 'a' as nat + 10)
    else if 'A' <= c <= 'F' then Some(c as nat - 'A' as nat + 10)
    else None
  }

  function Encode(data: seq<Byte>): string {
    if data == [] then "" else [Digit(data[0] / 16), Digit(data[0] % 16)] + Encode(data[1..])
  }

  function Decode(text: string): Option<seq<Byte>> {
    if text == "" then Some([])
    else if |text| == 1 then None
    else
      match (Value(text[0]), Value(text[1]), Decode(text[2..]))
      case (Some(h), Some(l), Some(rest)) => Some([ByteOf(h, l)] + rest)
      case _ => None
  }

  function ByteOf(high: nat, low: nat): Byte {
    if high < 16 && low < 16 then 16 * high + low else 0
  }

  lemma DigitValue(n: nat)
    requires n < 16
    ensures Value(Digit(n)) == Some(n)
  {
    var digits := "0123456789abcdef";
    if n < 10 {
      assert digits[n] as nat == '0' as nat + n;
    } else {
      assert digits[n] as nat == 'a' as nat + n - 10;
    }
  }

  lemma ValueDigit(c: char)
    requires Value(c).Some?
    ensures Value(c).value < 16 && Digit(Value(c).value) == LowerChar(c)
  {
    DigitValue(Value(c).value);
    var d := Digit(Value(c).value);
    assert d <= '9' || 'a' <= d <= 'f';
  }

  lemma {:induction false} DecodeEncode(data: seq<Byte>)
    ensures Decode(Encode(data)) == Some(data)
  {
    if data != [] {
      DigitValue(data[0] / 16);
      DigitValue(data[0] % 16);
      DecodeEncode(data[1..]);
      assert Encode(data)[2..] == Encode(data[1..]);
      assert data == [data[0]] + data[1..];
    }
  }

  lemma PairEncodes(high: char, low: char)
    requires Value(high).Some? && Value(low).Some?
    ensures Encode([ByteOf(Value(high).value, Value(low).value)]) == [LowerChar(high), LowerChar(low)]
  {
    ValueDigit(high);
    ValueDigit(low);
    var b := ByteOf(Value(high).value, Value(low).value);
    assert b / 16 == Value(high).value && b % 16 == Value(low).value;
  }

  lemma {:induction false} EncodeDecode(text: string)
    requires Decode(text).Some?
    ensures Encode(Decode(text).value) == Lower(text)
  {
    if text != "" {
      PairEncodes(text[0], text[1]);
      EncodeDecode(text[2..]);
      var b, rest := ByteOf(Value(text[0]).value, Value(text[1]).value), Decode(text[2..]).value;
      assert ([b] + rest)[1..] == rest;
      assert Encode([b] + rest) == Encode([b]) + Encode(rest);
      assert Lower(text) == [LowerChar(text[0]), LowerChar(text[1])] + Lower(text[2..]);
    }
  }

  /** Two digits for each byte, the high one first. */
  lemma {:induction false} EncodeAt(data: seq<Byte>, i: nat)
    requires i < |data|
    ensures var text := Encode(data);
      && |text| == 2 * |data|
      && text[2 * i] == "0123456789abcdef"[data[i] / 16] && text[2 * i + 1] == "0123456789abcdef"[data[i] % 16]
  {
    if |data| == 1 {
      assert Encode(data[1..]) == "";
    } else {
      EncodeAt(data[1..], if i == 0 then 0 else i - 1);
    }
  }

  lemma LowerValue(c: char)
    ensures Value(LowerChar(c)) == Value(c)
  {
  }

  lemma {:induction false} DecodeLower(text: string)
    ensures Decode(Lower(text)) == Decode(text)
  {
    if |text| >= 2 {
      LowerValue(text[0]);
      LowerValue(text[1]);
      DecodeLower(text[2..]);
      assert Lower(text)[2..] == Lower(text[2..]);
    }
  }

  /** Text stands for data, in whatever case it is written, exactly if it decodes to it. */
  lemma StandsFor(data: seq<Byte>, text: string)
    ensures EqIgnoreCase(Encode(data), text) <==> Decode(text) == Some(data)
  {
    DecodeEncode(data);
    DecodeLower(text);
    DecodeLower(Encode(data));
    if Decode(text) == Some(data) {
      EncodeDecode(text);
      LowerIdempotent(text);
    }
  }

  lemma EncodeInjective(a: seq<Byte>, b: seq<Byte>)
    requires Encode(a) == Encode(b)
    ensures a == b
  {
    DecodeEncode(a);
    DecodeEncode(b);
  }
}
