/** Escaping text for XML, and what the Route 53 client's reading makes of it (src/route53.rs:501-526). */
module Escaping {
  import opened Text

  /** `replace` of one character. */
  function ReplaceChar(s: string, c: char, text: string): string {
    if s == "" then "" else (if s[0] == c then text else [s[0]]) + ReplaceChar(s[1..], c, text)
  }

  function XmlEscape(s: string): string {
    ReplaceChar(ReplaceChar(ReplaceChar(ReplaceChar(s, '&', "&amp;"), '<', "&lt;"), '>', "&gt;"), '"', "&quot;")
  }

  predicate IsSpecial(c: char) {
    c == '&' || c == '<' || c == '>' || c == '"'
  }

  function Entity(c: char): string {
    if c == '&' then "&amp;"
    else if c == '<' then "&lt;"
    else if c == '>' then "&gt;"
    else if c == '"' then "&quot;"
    else [c]
  }

  /** Escaping in one pass. */
  function Entities(s: string): string {
    if s == "" then "" else Entity(s[0]) + Entities(s[1..])
  }

  lemma {:induction false} ReplaceConcat(a: string, b: string, c: char, text: string)
    ensures ReplaceChar(a + b, c, text) == ReplaceChar(a, c, text) + ReplaceChar(b, c, text)
  {
    if a == "" {
      assert a + b == b;
    } else {
      ReplaceConcat(a[1..], b, c, text);
      assert (a + b)[1..] == a[1..] + b;
      var head := if a[0] == c then text else [a[0]];
      Associative(head, ReplaceChar(a[1..], c, text), ReplaceChar(b, c, text));
    }
  }

  lemma {:induction false} ReplaceAbsent(s: string, c: char, text: string)
    requires c !in s
    ensures ReplaceChar(s, c, text) == s
  {
    if s != "" {
      ReplaceAbsent(s[1..], c, text);
    }
  }

  lemma ReplaceOne(d: char, c: char, text: string)
    ensures ReplaceChar([d], c, text) == if d == c then text else [d]
  {
    assert ReplaceChar([d], c, text) == (if d == c then text else [d]) + "";
  }

  lemma QuotesOnly(s: string)
    requires '>' !in s && '"' !in s
    ensures ReplaceChar(ReplaceChar(s, '>', "&gt;"), '"', "&quot;") == s
  {
    ReplaceAbsent(s, '>', "&gt;");
    ReplaceAbsent(s, '"', "&quot;");
  }

  lemma EscapeQuotes(c: char)
    requires c != '&' && c != '<'
    ensures ReplaceChar(ReplaceChar([c], '>', "&gt;"), '"', "&quot;") == Entity(c)
  {
    ReplaceOne(c, '>', "&gt;");
    if c == '>' {
      ReplaceAbsent("&gt;", '"', "&quot;");
    } else {
      ReplaceOne(c, '"', "&quot;");
    }
  }

  lemma EscapeOne(c: char)
    ensures XmlEscape([c]) == Entity(c)
  {
    ReplaceOne(c, '&', "&amp;");
    if c == '&' {
      ReplaceAbsent("&amp;", '<', "&lt;");
      QuotesOnly("&amp;");
    } else {
      ReplaceOne(c, '<', "&lt;");
      if c == '<' {
        QuotesOnly("&lt;");
      } else {
        EscapeQuotes(c);
      }
    }
  }

  lemma EscapeConcat(a: string, b: string)
    ensures XmlEscape(a + b) == XmlEscape(a) + XmlEscape(b)
  {
    var a1, b1 := ReplaceChar(a, '&', "&amp;"), ReplaceChar(b, '&', "&amp;");
    var a2, b2 := ReplaceChar(a1, '<', "&lt;"), ReplaceChar(b1, '<', "&lt;");
    var a3, b3 := ReplaceChar(a2, '>', "&gt;"), ReplaceChar(b2, '>', "&gt;");
    ReplaceConcat(a, b, '&', "&amp;");
    ReplaceConcat(a1, b1, '<', "&lt;");
    ReplaceConcat(a2, b2, '>', "&gt;");
    ReplaceConcat(a3, b3, '"', "&quot;");
  }

  /** Replacing `&` before the others escapes every character exactly once. */
  lemma {:induction false} EscapeOnce(s: string)
    ensures XmlEscape(s) == Entities(s)
  {
    if s != "" {
      EscapeOnce(s[1..]);
      EscapeOne(s[0]);
      EscapeConcat([s[0]], s[1..]);
      assert [s[0]] + s[1..] == s;
    }
  }

  lemma {:induction false} EntitiesHide(s: string)
    ensures '<' !in Entities(s) && '>' !in Entities(s) && '"' !in Entities(s)
  {
    if s != "" {
      EntitiesHide(s[1..]);
    }
  }

  predicate IsPlain(s: string) {
    forall i | 0 <= i < |s| :: !IsSpecial(s[i])
  }

  lemma {:induction false} EntitiesOfPlain(s: string)
    requires IsPlain(s)
    ensures Entities(s) == s
  {
    if s != "" {
      EntitiesOfPlain(s[1..]);
    }
  }

  function Semicolons(s: string): nat {
    if s == "" then 0 else (if s[0] == ';' then 1 else 0) + Semicolons(s[1..])
  }

  lemma {:induction false} SemicolonsConcat(a: string, b: string)
    ensures Semicolons(a + b) == Semicolons(a) + Semicolons(b)
  {
    if a == "" {
      assert a + b == b;
    } else {
      SemicolonsConcat(a[1..], b);
      assert (a + b)[1..] == a[1..] + b;
    }
  }

  lemma EntitySemicolons(c: char)
    ensures Semicolons(Entity(c)) == if IsSpecial(c) || c == ';' then 1 else 0
  {
    if IsSpecial(c) {
      var e := Entity(c);
      assert e == e[..|e| - 1] + ";";
      NoSemicolons(e[..|e| - 1]);
      SemicolonsConcat(e[..|e| - 1], ";");
      assert Semicolons(";") == 1 + Semicolons("");
    } else {
      assert Semicolons([c]) == (if c == ';' then 1 else 0) + Semicolons("");
    }
  }

  lemma {:induction false} NoSemicolons(s: string)
    requires ';' !in s
    ensures Semicolons(s) == 0
  {
    if s != "" {
      NoSemicolons(s[1..]);
    }
  }

  /** Every special character adds a semicolon. */
  lemma {:induction false} EntitiesAddSemicolons(s: string)
    ensures Semicolons(Entities(s)) >= Semicolons(s)
    ensures Semicolons(Entities(s)) == Semicolons(s) ==> IsPlain(s)
  {
    if s != "" {
      EntitiesAddSemicolons(s[1..]);
      EntitySemicolons(s[0]);
      SemicolonsConcat(Entity(s[0]), Entities(s[1..]));
    }
  }

  lemma {:induction false} TrimStartSemicolons(s: string)
    ensures Semicolons(TrimStart(s)) == Semicolons(s)
  {
    if s != "" && IsSpace(s[0]) {
      TrimStartSemicolons(s[1..]);
    }
  }

  lemma {:induction false} TrimEndSemicolons(s: string)
    ensures Semicolons(TrimEnd(s)) == Semicolons(s)
  {
    if s != "" && IsSpace(s[|s| - 1]) {
      var k := |s| - 1;
      TrimEndSemicolons(s[..k]);
      SemicolonsConcat(s[..k], [s[k]]);
      assert s == s[..k] + [s[k]] && s[k] != ';';
      assert Semicolons([s[k]]) == 0 + Semicolons("");
    }
  }

  /** A name comes back from the XML unchanged exactly if nothing in it is escaped or trimmed. */
  lemma NameSurvives(name: string)
    ensures Trim(XmlEscape(name)) == name <==> IsPlain(name) && Trim(name) == name
  {
    EscapeOnce(name);
    if IsPlain(name) {
      EntitiesOfPlain(name);
    } else {
      EntitiesAddSemicolons(name);
      TrimStartSemicolons(Entities(name));
      TrimEndSemicolons(TrimStart(Entities(name)));
    }
  }

  /** An ampersand is not turned back. */
  lemma AmpersandLost()
    ensures Trim(XmlEscape("&")) == "&amp;" && "&amp;" != "&"
  {
    EscapeOne('&');
    assert Entity('&') == "&amp;" && |"&amp;"| == 5;
    TrimKept("&amp;");
  }

  lemma TrimKept(s: string)
    requires s != "" && !IsSpace(s[0]) && !IsSpace(s[|s| - 1])
    ensures Trim(s) == s
  {
  }
}
