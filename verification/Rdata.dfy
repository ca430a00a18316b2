/** TLSA record data as text (section 2.2 of RFC 6698), printed and read (src/publish.rs). */
module Rdata {
  import opened Text
  import opened Publish

  function WordEnd(s: string): (n: nat)
    ensures n <= |s| && NoSpace(s[..n]) && (n < |s| ==> IsSpace(s[n]))
    ensures s != "" && !IsSpace(s[0]) ==> n > 0
  {
    if s == "" || IsSpace(s[0]) then 0 else 1 + WordEnd(s[1..])
  }

  /** `split_whitespace` */
  function Words(s: string): seq<string> {
    if s == "" then []
    else if IsSpace(s[0]) then Words(s[1..])
    else [s[..WordEnd(s)]] + Words(s[WordEnd(s)..])
  }

  function Concat(words: seq<string>): string {
    if words == [] then "" else words[0] + Concat(words[1..])
  }

  predicate IsDigits(s: string) {
    s != "" && forall i | 0 <= i < |s| :: '0' <= s[i] <= '9'
  }

  function NumberOf(s: string): nat
    requires s == "" || IsDigits(s)
  {
    if s == "" then 0 else 10 * NumberOf(s[..|s| - 1]) + (s[|s| - 1] as nat - '0' as nat)
  }

  /** `parse::<uN>`: digits, with a plus sign if need be, within the limit. */
  function ParseUnsigned(s: string, limit: nat): (n: Option<nat>)
    ensures n.Some? ==> n.value < limit
  {
    var digits := if s != "" && s[0] == '+' then s[1..] else s;
    if IsDigits(digits) && NumberOf(digits) < limit then Some(NumberOf(digits)) else None
  }

  function ParseByte(s: string): Option<Byte> {
    match ParseUnsigned(s, 256)
    case None => None
    case Some(n) => Some(n)
  }

  function FromWords(words: seq<string>): Option<DaneTlsa> {
    if |words| < 3 then None
    else
      match (ParseByte(words[0]), ParseByte(words[1]), ParseByte(words[2]))
      case (Some(usage), Some(selector), Some(matching)) =>
        var certificate := Lower(Concat(words[3..]));
        if certificate == "" then None else Some(DaneTlsa(usage, selector, matching, certificate))
      case _ => None
  }

  function ParseTlsaRdata(s: string): Option<DaneTlsa> {
    FromWords(Words(s))
  }

  function FormatTlsaRdata(r: DaneTlsa): string {
    Decimal(r.usage) + " " + (Decimal(r.selector) + " " + (Decimal(r.matching) + " " + r.certificate))
  }

  // ---- words ----

  lemma {:induction false} WordEndWithin(w: string, t: string)
    requires NoSpace(w) && (t == "" || IsSpace(t[0]))
    ensures WordEnd(w + t) == |w|
  {
    if w == "" {
      assert w + t == t;
    } else {
      WordEndWithin(w[1..], t);
      assert (w + t)[1..] == w[1..] + t;
    }
  }

  /** A word followed by white space or the end comes out first. */
  lemma WordFirst(w: string, t: string)
    requires w != "" && NoSpace(w) && (t == "" || IsSpace(t[0]))
    ensures Words(w + t) == [w] + Words(t)
  {
    WordEndWithin(w, t);
    assert (w + t)[..|w|] == w && (w + t)[|w|..] == t;
  }

  lemma {:induction false} WordsConcat(p: string, t: string)
    requires p == "" || IsSpace(p[|p| - 1])
    ensures Words(p + t) == Words(p) + Words(t)
    decreases |p|
  {
    if p == "" {
      assert p + t == t;
    } else if IsSpace(p[0]) {
      assert (p + t)[1..] == p[1..] + t;
      WordsConcat(p[1..], t);
    } else {
      var n := WordEnd(p);
      assert p == p[..n] + p[n..];
      Associative(p[..n], p[n..], t);
      WordFirst(p[..n], p[n..]);
      WordFirst(p[..n], p[n..] + t);
      WordsConcat(p[n..], t);
      Associative([p[..n]], Words(p[n..]), Words(t));
    }
  }

  function Squeezed(s: string): string {
    if s == "" then "" else (if IsSpace(s[0]) then "" else [s[0]]) + Squeezed(s[1..])
  }

  lemma {:induction false} SqueezedWord(w: string, t: string)
    requires NoSpace(w)
    ensures Squeezed(w + t) == w + Squeezed(t)
  {
    if w == "" {
      assert w + t == t;
    } else {
      SqueezedWord(w[1..], t);
      assert (w + t)[1..] == w[1..] + t;
    }
  }

  lemma {:induction false} ConcatWords(s: string)
    ensures Concat(Words(s)) == Squeezed(s)
    decreases |s|
  {
    if s != "" {
      if IsSpace(s[0]) {
        ConcatWords(s[1..]);
      } else {
        var n := WordEnd(s);
        ConcatWords(s[n..]);
        assert s == s[..n] + s[n..];
        SqueezedWord(s[..n], s[n..]);
      }
    }
  }

  // ---- numbers ----

  lemma {:induction false} NumberOfDecimal(n: nat)
    ensures IsDigits(Decimal(n)) && NumberOf(Decimal(n)) == n
  {
    var d := DigitChar(n % 10);
    assert d as nat - '0' as nat == n % 10;
    if n < 10 {
      assert Decimal(n) == [d] && [d][..0] == "";
      assert NumberOf("") == 0;
    } else {
      NumberOfDecimal(n / 10);
      assert Decimal(n)[..|Decimal(n)| - 1] == Decimal(n / 10);
    }
  }

  lemma ParseDecimal(n: nat, limit: nat)
    requires n < limit
    ensures ParseUnsigned(Decimal(n), limit) == Some(n) && NoSpace(Decimal(n)) && Decimal(n) != ""
  {
    NumberOfDecimal(n);
    assert Decimal(n)[0] != '+';
  }

  // ---- round trips ----

  predicate IsData(certificate: string) {
    certificate != "" && NoSpace(certificate) && Lower(certificate) == certificate
  }

  lemma FormatWords(r: DaneTlsa)
    requires IsData(r.certificate)
    ensures Words(FormatTlsaRdata(r)) == [Decimal(r.usage)] + ([Decimal(r.selector)] + ([Decimal(r.matching)] + [r.certificate]))
  {
    var tail2 := Decimal(r.matching) + " " + r.certificate;
    var tail1 := Decimal(r.selector) + " " + tail2;
    ParseDecimal(r.usage, 256);
    ParseDecimal(r.selector, 256);
    ParseDecimal(r.matching, 256);
    FieldFirst(Decimal(r.usage), tail1);
    FieldFirst(Decimal(r.selector), tail2);
    FieldFirst(Decimal(r.matching), r.certificate);
    WordFirst(r.certificate, "");
    assert r.certificate + "" == r.certificate && [r.certificate] + [] == [r.certificate];
  }

  lemma ConcatOne(w: string)
    ensures Concat([w]) == w
  {
    assert Concat([w]) == w + "";
  }

  /** Reading what was printed gives the record back. */
  lemma ParseFormat(r: DaneTlsa)
    requires IsData(r.certificate)
    ensures ParseTlsaRdata(FormatTlsaRdata(r)) == Some(r)
  {
    FormatWords(r);
    var words := Words(FormatTlsaRdata(r));
    assert words[3..] == [r.certificate];
    ConcatOne(r.certificate);
    ParseDecimal(r.usage, 256);
    ParseDecimal(r.selector, 256);
    ParseDecimal(r.matching, 256);
  }

  lemma FieldFirst(w: string, t: string)
    requires w != "" && NoSpace(w)
    ensures Words(w + " " + t) == [w] + Words(t)
  {
    assert w + " " + t == w + (" " + t) && (" " + t)[1..] == t;
    WordFirst(w, " " + t);
  }

  lemma {:induction false} WordsNoSpace(s: string)
    ensures forall i | 0 <= i < |Words(s)| :: NoSpace(Words(s)[i])
    decreases |s|
  {
    if s != "" {
      WordsNoSpace(if IsSpace(s[0]) then s[1..] else s[WordEnd(s)..]);
    }
  }

  lemma {:induction false} ConcatNoSpace(words: seq<string>)
    requires forall i | 0 <= i < |words| :: NoSpace(words[i])
    ensures NoSpace(Concat(words))
  {
    if words != [] {
      ConcatNoSpace(words[1..]);
    }
  }

  /** What is read is always in the form in which it is printed. */
  lemma ParsedIsData(s: string)
    requires ParseTlsaRdata(s).Some?
    ensures IsData(ParseTlsaRdata(s).value.certificate)
  {
    var words := Words(s);
    WordsNoSpace(s);
    ConcatNoSpace(words[3..]);
    var c := Concat(words[3..]);
    LowerIdempotent(c);
    assert forall i | 0 <= i < |c| :: IsSpace(Lower(c)[i]) == IsSpace(c[i]);
  }

  /** Whatever can be read at all is printed so that it reads the same. */
  lemma FormatParse(s: string)
    requires ParseTlsaRdata(s).Some?
    ensures ParseTlsaRdata(FormatTlsaRdata(ParseTlsaRdata(s).value)) == ParseTlsaRdata(s)
  {
    ParsedIsData(s);
    ParseFormat(ParseTlsaRdata(s).value);
  }

  /** White space inside the data makes no difference: only the characters between count. */
  lemma SplitData(head: string, a: string, b: string)
    requires head != "" && IsSpace(head[|head| - 1]) && |Words(head)| >= 3 && Squeezed(a) == Squeezed(b)
    ensures ParseTlsaRdata(head + a) == ParseTlsaRdata(head + b)
  {
    WordsConcat(head, a);
    WordsConcat(head, b);
    var h := Words(head);
    DataOf(h, Words(a));
    DataOf(h, Words(b));
    ConcatWords(a);
    ConcatWords(b);
  }

  lemma DataOf(h: seq<string>, w: seq<string>)
    requires |h| >= 3
    ensures (h + w)[..3] == h[..3] && Concat((h + w)[3..]) == Concat(h[3..]) + Concat(w)
  {
    assert (h + w)[3..] == h[3..] + w;
    ConcatConcat(h[3..], w);
  }

  lemma {:induction false} ConcatConcat(a: seq<string>, b: seq<string>)
    ensures Concat(a + b) == Concat(a) + Concat(b)
  {
    if a == [] {
      assert a + b == b;
    } else {
      ConcatConcat(a[1..], b);
      assert (a + b)[1..] == a[1..] + b;
      assert a[0] + (Concat(a[1..]) + Concat(b)) == (a[0] + Concat(a[1..])) + Concat(b);
    }
  }
}
