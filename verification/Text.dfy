/** Strings as the program compares and trims them. */
module Text {

  type Byte = x: int | 0 <= x < 256

  datatype Option<+T> = None | Some(value: T)

  function LowerChar(c: char): char {
    if 'A' <= c <= 'Z' then (c as int + 32) as char else c
  }

  /** `to_ascii_lowercase` */
  function Lower(s: string): (r: string)
    ensures |r| == |s|
  {
    seq(|s|, i requires 0 <= i < |s| => LowerChar(s[i]))
  }

  /** `eq_ignore_ascii_case` */
  predicate EqIgnoreCase(a: string, b: string) {
    Lower(a) == Lower(b)
  }

  /** Only the 26 letters have two cases. */
  predicate SameLetter(a: char, b: char) {
    || a == b
    || ('A' <= a <= 'Z' && b as int == a as int + 32)
    || ('A' <= b <= 'Z' && a as int == b as int + 32)
  }

  /** Equal ignoring case: of one length, with the same letters, and everything else the same. */
  lemma EqualLetters(a: string, b: string)
    ensures EqIgnoreCase(a, b) <==> |a| == |b| && forall i | 0 <= i < |a| :: SameLetter(a[i], b[i])
  {
    if EqIgnoreCase(a, b) {
      forall i | 0 <= i < |a| ensures SameLetter(a[i], b[i]) {
        assert Lower(a)[i] == Lower(b)[i];
      }
    } else if |a| == |b| {
      var i :| 0 <= i < |a| && Lower(a)[i] != Lower(b)[i];
      assert !SameLetter(a[i], b[i]);
    }
  }

  lemma LowerIdempotent(s: string)
    ensures Lower(Lower(s)) == Lower(s)
  {
  }

  lemma LowerConcat(a: string, b: string)
    ensures Lower(a + b) == Lower(a) + Lower(b)
  {
  }

  /** `trim_end_matches('.')` */
  function TrimDots(s: string): (r: string)
    ensures |r| <= |s| && r == s[..|r|] && (r != "" ==> r[|r| - 1] != '.')
    ensures forall i | |r| <= i < |s| :: s[i] == '.'
  {
    if s != "" && s[|s| - 1] == '.' then TrimDots(s[..|s| - 1]) else s
  }

  lemma Associative<T>(a: seq<T>, b: seq<T>, c: seq<T>)
    ensures a + (b + c) == (a + b) + c
  {
  }

  // ---- white space ----

  /** `char::is_whitespace`: the Unicode White_Space characters. */
  predicate IsSpace(c: char) {
    || '\U{0009}' <= c <= '\U{000D}' || c == ' ' || c == '\U{0085}' || c == '\U{00A0}' || c == '\U{1680}'
    || '\U{2000}' <= c <= '\U{200A}' || c == '\U{2028}' || c == '\U{2029}' || c == '\U{202F}'
    || c == '\U{205F}' || c == '\U{3000}'
  }

  predicate NoSpace(s: string) {
    forall i | 0 <= i < |s| :: !IsSpace(s[i])
  }

  function TrimStart(s: string): string {
    if s != "" && IsSpace(s[0]) then TrimStart(s[1..]) else s
  }

  function TrimEnd(s: string): string {
    if s != "" && IsSpace(s[|s| - 1]) then TrimEnd(s[..|s| - 1]) else s
  }

  /** `trim` */
  function Trim(s: string): string {
    TrimEnd(TrimStart(s))
  }

  // ---- decimal numbers ----

  function DigitChar(d: nat): char
    requires d < 10
  {
    '0' + d as char
  }

  /** `{n}` */
  function Decimal(n: nat): (r: string)
    ensures |r| > 0
  {
    if n < 10 then [DigitChar(n)] else Decimal(n / 10) + [DigitChar(n % 10)]
  }

  function Zeros(n: nat): (r: string)
    ensures |r| == n
  {
    seq(n, _ => '0')
  }

  /** `{n:0width}` */
  function Padded(n: nat, width: nat): string {
    var digits := Decimal(n);
    if |digits| >= width then digits else Zeros(width - |digits|) + digits
  }

  function Pow10(w: nat): nat {
    if w == 0 then 1 else 10 * Pow10(w - 1)
  }

  function FixedWidth(n: nat, width: nat): (r: string)
    ensures |r| == width
  {
    if width == 0 then "" else FixedWidth(n / 10, width - 1) + [DigitChar(n % 10)]
  }

  lemma {:induction false} FixedZero(width: nat)
    ensures FixedWidth(0, width) == Zeros(width)
  {
    if width > 0 {
      FixedZero(width - 1);
    }
  }

  lemma {:induction false} PaddedIsFixed(n: nat, width: nat)
    requires n < Pow10(width) && width > 0
    ensures Padded(n, width) == FixedWidth(n, width)
  {
    if n < 10 {
      FixedZero(width - 1);
    } else {
      PaddedIsFixed(n / 10, width - 1);
    }
  }

  /** The order in which strings compare. */
  ghost predicate LexLess(a: string, b: string) {
    exists i: nat :: i < |a| && i < |b| && a[..i] == b[..i] && a[i] < b[i]
  }

  /** Before in the order of strings: at the first difference, or as a proper prefix. */
  ghost predicate ComesBefore(a: string, b: string) {
    LexLess(a, b) || (|a| < |b| && b[..|a|] == a)
  }

  lemma LexExtend(p: string, a: string, b: string, x: string, y: string)
    requires LexLess(a, b)
    ensures LexLess(p + a + x, p + b + y)
  {
    var i: nat :| i < |a| && i < |b| && a[..i] == b[..i] && a[i] < b[i];
    var j, l, r := |p| + i, p + a + x, p + b + y;
    assert l[..j] == p + a[..i] && r[..j] == p + b[..i] && l[j] == a[i] && r[j] == b[i];
  }

  /** Numbers of one width compare as text as they do as numbers. */
  lemma {:induction false} FixedOrder(m: nat, n: nat, width: nat)
    requires m < n < Pow10(width)
    ensures LexLess(FixedWidth(m, width), FixedWidth(n, width))
  {
    var a, b := FixedWidth(m / 10, width - 1), FixedWidth(n / 10, width - 1);
    if m / 10 < n / 10 {
      FixedOrder(m / 10, n / 10, width - 1);
      LexExtend("", a, b, [DigitChar(m % 10)], [DigitChar(n % 10)]);
      assert "" + a == a && "" + b == b;
    } else {
      var l, r := FixedWidth(m, width), FixedWidth(n, width);
      assert l[..width - 1] == a == b == r[..width - 1] && l[width - 1] < r[width - 1];
    }
  }
}
