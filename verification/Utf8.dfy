/** Bytes and characters: what counts as UTF-8, and that trimming bytes is trimming characters. */
module Utf8 {
  import opened Text
  import opened Wire
  import Xmpp

  /** One character (section 3 of RFC 3629). */
  function Encoded(c: char): (r: seq<Byte>)
    ensures 1 <= |r| <= 4
  {
    var n := c as int;
    if n < 0x80 then [n]
    else if n < 0x800 then [0xC0 + n / 64, 0x80 + n % 64]
    else if n < 0x1_0000 then [0xE0 + n / 4096, 0x80 + n / 64 % 64, 0x80 + n % 64]
    else [0xF0 + n / 262144, 0x80 + n / 4096 % 64, 0x80 + n / 64 % 64, 0x80 + n % 64]
  }

  function EncodedAll(s: string): seq<Byte> {
    if s == "" then [] else Encoded(s[0]) + EncodedAll(s[1..])
  }

  // ---- every text is valid ----

  lemma EncodedLength(c: char, rest: seq<Byte>)
    ensures CharLength(Encoded(c) + rest) == |Encoded(c)|
  {
    var n := c as int;
    var s := Encoded(c) + rest;
    if n < 0x80 {
    } else if n < 0x800 {
      assert s[0] == 0xC0 + n / 64 && s[1] == 0x80 + n % 64;
    } else if n < 0x1_0000 {
      assert s[0] == 0xE0 + n / 4096 && s[1] == 0x80 + n / 64 % 64 && s[2] == 0x80 + n % 64;
      ThreeBytes(n);
    } else {
      assert s[0] == 0xF0 + n / 262144 && s[1] == 0x80 + n / 4096 % 64 && s[2] == 0x80 + n / 64 % 64 && s[3] == 0x80 + n % 64;
      FourBytes(n);
    }
  }

  lemma ThreeBytes(n: nat)
    requires 0x800 <= n < 0x1_0000 && !(0xD800 <= n < 0xE000)
    ensures n / 4096 == 0 ==> 0x20 <= n / 64 % 64
    ensures n / 4096 == 13 ==> n / 64 % 64 <= 0x1F
  {
  }

  lemma FourBytes(n: nat)
    requires 0x1_0000 <= n < 0x11_0000
    ensures n / 262144 <= 4
    ensures n / 262144 == 0 ==> 0x10 <= n / 4096 % 64
    ensures n / 262144 == 4 ==> n / 4096 % 64 <= 0xF
  {
  }

  lemma {:induction false} EncodedIsValid(s: string)
    ensures ValidUtf8(EncodedAll(s))
  {
    if s != "" {
      var rest := EncodedAll(s[1..]);
      EncodedLength(s[0], rest);
      EncodedIsValid(s[1..]);
      assert (Encoded(s[0]) + rest)[|Encoded(s[0])|..] == rest;
    }
  }

  // ---- and nothing else is ----

  lemma OfTwo(a: int, b: int)
    requires 0xC2 <= a <= 0xDF && 0x80 <= b <= 0xBF
    ensures var n := (a - 0xC0) * 64 + (b - 0x80);
      0x80 <= n < 0x800 && Encoded(n as char) == [a, b]
  {
  }

  lemma OfThree(a: int, b: int, c: int)
    requires 0xE0 <= a <= 0xEF && 0x80 <= b <= 0xBF && 0x80 <= c <= 0xBF
    requires (a == 0xE0 ==> 0xA0 <= b) && (a == 0xED ==> b <= 0x9F)
    ensures var n := (a - 0xE0) * 4096 + (b - 0x80) * 64 + (c - 0x80);
      0x800 <= n < 0x1_0000 && !(0xD800 <= n < 0xE000) && Encoded(n as char) == [a, b, c]
  {
    var n := (a - 0xE0) * 4096 + (b - 0x80) * 64 + (c - 0x80);
    assert n / 4096 == a - 0xE0 && n / 64 == (a - 0xE0) * 64 + (b - 0x80) && n % 64 == c - 0x80;
  }

  lemma Digits(high: int, low: int, n: int)
    requires 0 <= low < 64 && n == 64 * high + low
    ensures n / 64 == high && n % 64 == low
  {
  }

  lemma Nested(n: nat)
    ensures n / 4096 == n / 64 / 64 && n / 262144 == n / 64 / 64 / 64
  {
  }

  lemma OfFour(a: int, b: int, c: int, d: int)
    requires 0xF0 <= a <= 0xF4 && 0x80 <= b <= 0xBF && 0x80 <= c <= 0xBF && 0x80 <= d <= 0xBF
    requires (a == 0xF0 ==> 0x90 <= b) && (a == 0xF4 ==> b <= 0x8F)
    ensures var n := (a - 0xF0) * 262144 + (b - 0x80) * 4096 + (c - 0x80) * 64 + (d - 0x80);
      0x1_0000 <= n < 0x11_0000 && Encoded(n as char) == [a, b, c, d]
  {
    var n := (a - 0xF0) * 262144 + (b - 0x80) * 4096 + (c - 0x80) * 64 + (d - 0x80);
    Digits(((a - 0xF0) * 64 + (b - 0x80)) * 64 + (c - 0x80), d - 0x80, n);
    Digits((a - 0xF0) * 64 + (b - 0x80), c - 0x80, n / 64);
    Digits(a - 0xF0, b - 0x80, n / 64 / 64);
    Nested(n);
  }

  lemma FirstChar(s: seq<Byte>) returns (c: char)
    requires s != [] && CharLength(s) > 0
    ensures Encoded(c) == s[..CharLength(s)]
  {
    var n := CharLength(s);
    if n == 1 {
      c := s[0] as char;
    } else if n == 2 {
      OfTwo(s[0], s[1]);
      c := ((s[0] as int - 0xC0) * 64 + (s[1] as int - 0x80)) as char;
    } else if n == 3 {
      OfThree(s[0], s[1], s[2]);
      c := ((s[0] as int - 0xE0) * 4096 + (s[1] as int - 0x80) * 64 + (s[2] as int - 0x80)) as char;
    } else {
      OfFour(s[0], s[1], s[2], s[3]);
      c := ((s[0] as int - 0xF0) * 262144 + (s[1] as int - 0x80) * 4096 + (s[2] as int - 0x80) * 64 + (s[3] as int - 0x80)) as char;
    }
  }

  lemma {:induction false} ValidIsEncoded(s: seq<Byte>) returns (text: string)
    requires ValidUtf8(s)
    ensures EncodedAll(text) == s
    decreases |s|
  {
    if s == [] {
      text := "";
    } else {
      var n := CharLength(s);
      var c := FirstChar(s);
      var rest := ValidIsEncoded(s[n..]);
      text := [c] + rest;
      assert text[1..] == rest && s == s[..n] + s[n..];
    }
  }

  /** The bytes accepted are exactly those of texts. */
  lemma ValidExactly(s: seq<Byte>)
    ensures ValidUtf8(s) <==> exists text :: EncodedAll(text) == s
  {
    if ValidUtf8(s) {
      var text := ValidIsEncoded(s);
    }
    if text :| EncodedAll(text) == s {
      EncodedIsValid(text);
    }
  }

  // ---- where a text may be cut ----

  lemma EncodedBytes(c: char, i: nat)
    requires i < |Encoded(c)|
    ensures 0x80 <= Encoded(c)[i] <= 0xBF <==> i > 0
  {
  }

  ghost predicate BetweenCharacters(s: string, at: nat) {
    exists k: nat :: k <= |s| && |EncodedAll(s[..k])| == at
  }

  lemma FirstCut(s: string, k: nat)
    requires s != "" && 0 < k <= |s|
    ensures EncodedAll(s[..k]) == Encoded(s[0]) + EncodedAll(s[1..][..k - 1])
  {
    assert s[..k][1..] == s[1..][..k - 1];
  }

  lemma BetweenLater(s: string, at: nat)
    requires s != ""
    ensures BetweenCharacters(s, at) <==>
      at == 0 || (at >= |Encoded(s[0])| && BetweenCharacters(s[1..], at - |Encoded(s[0])|))
  {
    if k: nat :| k <= |s| && |EncodedAll(s[..k])| == at && k > 0 {
      FirstCut(s, k);
      assert |EncodedAll(s[1..][..k - 1])| == at - |Encoded(s[0])|;
    }
    if at == 0 {
      assert s[..0] == "" && |EncodedAll(s[..0])| == 0;
    } else if at >= |Encoded(s[0])| && BetweenCharacters(s[1..], at - |Encoded(s[0])|) {
      var k: nat :| k <= |s[1..]| && |EncodedAll(s[1..][..k])| == at - |Encoded(s[0])|;
      FirstCut(s, k + 1);
    }
  }

  /** The bytes of a text can be cut exactly between its characters. */
  lemma {:induction false} BoundaryExactly(s: string, at: nat)
    ensures IsBoundary(EncodedAll(s), at) <==> BetweenCharacters(s, at)
  {
    var all := EncodedAll(s);
    if s == "" {
      assert s[..0] == "" && BetweenCharacters(s, 0);
      assert forall k: nat | k <= |s| :: EncodedAll(s[..k]) == [];
    } else {
      var first := Encoded(s[0]);
      BetweenLater(s, at);
      if at < |first| {
        EncodedBytes(s[0], at);
        assert all[at] == first[at];
      } else {
        BoundaryExactly(s[1..], at - |first|);
        assert at < |all| ==> all[at] == EncodedAll(s[1..])[at - |first|];
      }
    }
  }

  // ---- white space ----

  /** The table of bytes and the table of characters agree. */
  lemma SpacesAgree(text: seq<Byte>, c: char)
    ensures Xmpp.SpaceAtEnd(text + Encoded(c)) == if IsSpace(c) then |Encoded(c)| else 0
  {
    var n := c as int;
    var s := text + Encoded(c);
    var l := |s|;
    if n < 0x80 {
      assert s[l - 1] == n;
    } else if n < 0x800 {
      assert s[l - 1] == 0x80 + n % 64 && s[l - 2] == 0xC0 + n / 64;
    } else if n < 0x1_0000 {
      assert s[l - 1] == 0x80 + n % 64 && s[l - 2] == 0x80 + n / 64 % 64 && s[l - 3] == 0xE0 + n / 4096;
    } else {
      assert s[l - 1] == 0x80 + n % 64 && s[l - 2] == 0x80 + n / 64 % 64 && s[l - 3] == 0x80 + n / 4096 % 64;
    }
  }

  lemma {:induction false} EncodedSnoc(s: string, c: char)
    ensures EncodedAll(s + [c]) == EncodedAll(s) + Encoded(c)
  {
    if s == "" {
      assert s + [c] == [c] && [c][1..] == "";
      assert EncodedAll([c]) == Encoded(c) + EncodedAll([c][1..]);
    } else {
      EncodedSnoc(s[1..], c);
      assert (s + [c])[1..] == s[1..] + [c];
      Associative(Encoded(s[0]), EncodedAll(s[1..]), Encoded(c));
    }
  }

  /** Trimming the bytes of a text leaves the bytes of the trimmed text. */
  lemma {:induction false} TrimAgrees(s: string)
    ensures Xmpp.TrimEnd(EncodedAll(s)) == EncodedAll(TrimEnd(s))
  {
    if s == "" {
      assert Xmpp.SpaceAtEnd([]) == 0;
    } else {
      var init, last := s[..|s| - 1], s[|s| - 1];
      assert s == init + [last];
      EncodedSnoc(init, last);
      SpacesAgree(EncodedAll(init), last);
      var all := EncodedAll(init) + Encoded(last);
      assert all[..|all| - |Encoded(last)|] == EncodedAll(init);
      if IsSpace(last) {
        TrimAgrees(init);
      }
    }
  }
}
