/**
 * The document that the Route 53 client sends, as tags and text, read back with the client's own
 * scanner (src/route53.rs:428-519).
 */
module ChangeDocument {
  import Hex
  import opened Text
  import opened Publish
  import opened Rdata
  import opened Xml
  import opened Escaping

  // ---- the change document ----

  datatype Change = Upsert | Delete

  function Label(change: Change): string {
    match change
    case Upsert => "UPSERT"
    case Delete => "DELETE"
  }

  function Field(tag: string, text: string): seq<Token> {
    [Tag(tag), Chars(text), Tag("/" + tag)]
  }

  function Indent(width: nat): (r: string)
    ensures '<' !in r
  {
    if width == 0 then "\n" else Indent(width - 1) + " "
  }

  function Gap(width: nat): (r: Token)
    ensures r.Chars? && IsToken(r)
  {
    Chars(Indent(width))
  }

  function Declaration(): (r: string)
    ensures IsName(r) && |r| > 30
  {
    "?xml version=\"1.0\" encoding=\"UTF-8\"?"
  }

  function Request(): (r: string)
    ensures IsName(r) && |r| > 30
  {
    Opening() + Namespace()
  }

  function Opening(): (r: string)
    ensures IsName(r) && |r| > 30
  {
    "ChangeResourceRecordSetsRequest xmlns="
  }

  function Namespace(): (r: string)
    ensures IsName(r)
  {
    "\"https://route53.amazonaws.com/doc/" + "2013-04-01/\""
  }

  function Line(width: nat, tag: string): seq<Token> {
    [Gap(width), Tag(tag)]
  }

  function Prolog(): seq<Token> {
    [Tag(Declaration())] + Line(0, Request())
  }

  function ChangeOpening(action: string): seq<Token> {
    (Line(2, "ChangeBatch") + (Line(4, "Changes") + Line(6, "Change"))) + ([Gap(8)] + (Field("Action", action) + [Gap(8)]))
  }

  /** What stands before the record set. */
  function Head(change: Change): seq<Token> {
    Prolog() + ChangeOpening(Label(change))
  }

  function Element(tag: string, inside: seq<Token>): seq<Token> {
    [Tag(tag)] + (inside + [Tag("/" + tag)])
  }

  function ValueTokens(r: DaneTlsa): seq<Token> {
    Element("ResourceRecord", Field("Value", XmlEscape(FormatTlsaRdata(r))))
  }

  function Values(records: Rrset): seq<Token> {
    if records == [] then [] else ValueTokens(records[0]) + Values(records[1..])
  }

  /** The record set: its fields, then its records. */
  function Inside(name: string, records: Rrset, ttl: nat): seq<Token> {
    [Gap(10)] + (Field("Name", XmlEscape(name)) + ([Gap(10)] + (Field("Type", "TLSA") + InsideRest(records, ttl))))
  }

  function InsideRest(records: Rrset, ttl: nat): seq<Token> {
    [Gap(10)] + (Field("TTL", Decimal(ttl)) + ([Gap(10), Tag("ResourceRecords")] + (Values(records) + InsideEnd())))
  }

  function InsideEnd(): seq<Token> {
    [Tag("/ResourceRecords"), Gap(8)]
  }

  function Tail(): seq<Token> {
    (Line(6, "/Change") + Line(4, "/Changes")) + (Line(2, "/ChangeBatch") + Line(0, "/ChangeResourceRecordSetsRequest"))
  }

  function Document(change: Change, name: string, records: Rrset, ttl: nat): seq<Token> {
    Wrapped(Head(change), "ResourceRecordSet", Inside(name, records, ttl), Tail())
  }

  // ---- reading it back, on the tags ----

  lemma {:induction false} SplitPast(pre: seq<Token>, post: seq<Token>, tag: string)
    requires Tag(tag) !in pre
    ensures Split(pre + post, tag) ==
      match Split(post, tag)
      case None => None
      case Some((before, after)) => Some((pre + before, after))
  {
    if pre == [] {
      assert pre + post == post;
      if Split(post, tag).Some? {
        assert pre + Split(post, tag).value.0 == Split(post, tag).value.0;
      }
    } else {
      SplitPast(pre[1..], post, tag);
      assert (pre + post)[1..] == pre[1..] + post && (pre + post)[0] == pre[0];
      if Split(post, tag).Some? {
        var before := Split(post, tag).value.0;
        Associative([pre[0]], pre[1..], before);
        assert [pre[0]] + pre[1..] == pre;
      }
    }
  }

  lemma SplitHere(post: seq<Token>, tag: string)
    ensures Split([Tag(tag)] + post, tag) == Some(([], post))
  {
    assert ([Tag(tag)] + post)[1..] == post;
  }

  lemma SplitAt(pre: seq<Token>, post: seq<Token>, tag: string)
    requires Tag(tag) !in pre
    ensures Split(pre + ([Tag(tag)] + post), tag) == Some((pre, post))
  {
    SplitPast(pre, [Tag(tag)] + post, tag);
    SplitHere(post, tag);
    assert pre + [] == pre;
  }

  lemma EnclosedPast(pre: seq<Token>, post: seq<Token>, tag: string)
    requires Tag(tag) !in pre
    ensures Enclosed(pre + post, tag) == Enclosed(post, tag)
  {
    SplitPast(pre, post, tag);
  }

  lemma EnclosedField(text: string, post: seq<Token>, tag: string)
    ensures Enclosed(Field(tag, text) + post, tag) == [[Chars(text)]] + Enclosed(post, tag)
  {
    var after := [Chars(text)] + ([Tag("/" + tag)] + post);
    assert Field(tag, text) + post == [Tag(tag)] + after;
    SplitHere(after, tag);
    SplitAt([Chars(text)], post, "/" + tag);
  }

  function TokenTexts(tokens: seq<Token>, tag: string): seq<string> {
    TrimAll(RenderAll(Enclosed(tokens, tag)))
  }

  lemma RenderChars(text: string)
    ensures Render([Chars(text)]) == text
  {
    assert Render([Chars(text)]) == text + "";
  }

  lemma TextField(text: string, post: seq<Token>, tag: string)
    ensures TokenTexts(Field(tag, text) + post, tag) == [Trim(text)] + TokenTexts(post, tag)
  {
    EnclosedField(text, post, tag);
    RenderChars(text);
    assert ([[Chars(text)]] + Enclosed(post, tag))[1..] == Enclosed(post, tag);
    assert ([text] + RenderAll(Enclosed(post, tag)))[1..] == RenderAll(Enclosed(post, tag));
  }

  lemma TextPast(pre: seq<Token>, post: seq<Token>, tag: string)
    requires Tag(tag) !in pre
    ensures TokenTexts(pre + post, tag) == TokenTexts(post, tag)
  {
    EnclosedPast(pre, post, tag);
  }

  lemma FieldPast(tag: string, text: string, post: seq<Token>, other: string)
    requires other != tag && other != "" && other[0] != '/'
    ensures TokenTexts(Field(tag, text) + post, other) == TokenTexts(post, other)
  {
    TextPast(Field(tag, text), post, other);
  }

  /** Text that neither escaping nor trimming changes. */
  predicate IsKept(s: string) {
    IsPlain(s) && Trim(s) == s
  }

  predicate AreKept(records: Rrset) {
    forall r | r in records :: IsData(r.certificate) && IsPlain(r.certificate)
  }

  function Formatted(records: Rrset): seq<string> {
    if records == [] then [] else [FormatTlsaRdata(records[0])] + Formatted(records[1..])
  }

  lemma {:induction false} DecimalDigits(n: nat)
    ensures forall i | 0 <= i < |Decimal(n)| :: '0' <= Decimal(n)[i] <= '9'
  {
    if n >= 10 {
      DecimalDigits(n / 10);
    }
  }

  /** A printed record goes through escaping and trimming unchanged. */
  lemma FormatKept(r: DaneTlsa)
    requires IsData(r.certificate) && IsPlain(r.certificate)
    ensures IsKept(FormatTlsaRdata(r))
  {
    DecimalDigits(r.usage);
    DecimalDigits(r.selector);
    DecimalDigits(r.matching);
    var tail := Decimal(r.matching) + " " + r.certificate;
    SpacedPlain(Decimal(r.matching), r.certificate);
    SpacedPlain(Decimal(r.selector), tail);
    SpacedPlain(Decimal(r.usage), Decimal(r.selector) + " " + tail);
    TrimKept(FormatTlsaRdata(r));
  }

  lemma SpacedPlain(a: string, b: string)
    requires a != "" && IsPlain(a) && !IsSpace(a[0]) && b != "" && IsPlain(b) && !IsSpace(b[|b| - 1])
    ensures var s := a + " " + b; IsPlain(s) && !IsSpace(s[0]) && !IsSpace(s[|s| - 1])
  {
  }

  lemma {:induction false} ValueTexts(records: Rrset, post: seq<Token>)
    requires AreKept(records)
    ensures TokenTexts(Values(records) + post, "Value") == Formatted(records) + TokenTexts(post, "Value")
  {
    if records == [] {
      assert Values(records) + post == post;
      assert [] + TokenTexts(post, "Value") == TokenTexts(post, "Value");
    } else {
      var r, later := records[0], Values(records[1..]) + post;
      ValueTexts(records[1..], post);
      ValueText(r, later);
      Associative(ValueTokens(r), Values(records[1..]), post);
      Associative([FormatTlsaRdata(r)], Formatted(records[1..]), TokenTexts(post, "Value"));
    }
  }

  lemma ValueText(r: DaneTlsa, later: seq<Token>)
    requires IsData(r.certificate) && IsPlain(r.certificate)
    ensures TokenTexts(ValueTokens(r) + later, "Value") == [FormatTlsaRdata(r)] + TokenTexts(later, "Value")
  {
    var text := XmlEscape(FormatTlsaRdata(r));
    var close := [Tag("/" + "ResourceRecord")];
    var rest := close + later;
    FormatKept(r);
    EscapeOnce(FormatTlsaRdata(r));
    EntitiesOfPlain(FormatTlsaRdata(r));
    assert ValueTokens(r) + later == [Tag("ResourceRecord")] + (Field("Value", text) + rest);
    TextPast([Tag("ResourceRecord")], Field("Value", text) + rest, "Value");
    TextField(text, rest, "Value");
    TextPast(close, later, "Value");
  }

  lemma {:induction false} ListedFormatted(records: Rrset)
    requires forall r | r in records :: IsData(r.certificate)
    ensures Listed(Formatted(records)) == records
  {
    if records != [] {
      ParseFormat(records[0]);
      ListedFormatted(records[1..]);
      assert Formatted(records)[1..] == Formatted(records[1..]);
    }
  }

  // ---- the fields inside the record set ----

  lemma NameText(name: string, records: Rrset, ttl: nat)
    ensures First(TokenTexts(Inside(name, records, ttl), "Name")) == Some(Trim(XmlEscape(name)))
  {
    var post := [Gap(10)] + (Field("Type", "TLSA") + InsideRest(records, ttl));
    TextPast([Gap(10)], Field("Name", XmlEscape(name)) + post, "Name");
    TextField(XmlEscape(name), post, "Name");
  }

  lemma TypeText(name: string, records: Rrset, ttl: nat)
    ensures First(TokenTexts(Inside(name, records, ttl), "Type")) == Some("TLSA")
  {
    var typed := Field("Type", "TLSA") + InsideRest(records, ttl);
    TextPast([Gap(10)], Field("Name", XmlEscape(name)) + ([Gap(10)] + typed), "Type");
    FieldPast("Name", XmlEscape(name), [Gap(10)] + typed, "Type");
    TextPast([Gap(10)], typed, "Type");
    TextField("TLSA", InsideRest(records, ttl), "Type");
    TrimKept("TLSA");
  }

  lemma ValueFields(name: string, records: Rrset, ttl: nat)
    requires AreKept(records)
    ensures TokenTexts(Inside(name, records, ttl), "Value") == Formatted(records)
  {
    var listed := Values(records) + InsideEnd();
    var opening := [Gap(10), Tag("ResourceRecords")];
    var timed := Field("TTL", Decimal(ttl)) + (opening + listed);
    var typed := Field("Type", "TLSA") + ([Gap(10)] + timed);
    TextPast([Gap(10)], Field("Name", XmlEscape(name)) + ([Gap(10)] + typed), "Value");
    FieldPast("Name", XmlEscape(name), [Gap(10)] + typed, "Value");
    TextPast([Gap(10)], typed, "Value");
    FieldPast("Type", "TLSA", [Gap(10)] + timed, "Value");
    TextPast([Gap(10)], timed, "Value");
    FieldPast("TTL", Decimal(ttl), opening + listed, "Value");
    TextPast(opening, listed, "Value");
    ValueTexts(records, InsideEnd());
    TextPast(InsideEnd(), [], "Value");
    assert InsideEnd() + [] == InsideEnd();
    assert Formatted(records) + [] == Formatted(records);
  }

  // ---- the whole document ----

  lemma DocumentConcat(a: seq<Token>, b: seq<Token>)
    ensures IsDocument(a + b) <==> IsDocument(a) && IsDocument(b)
  {
    assert forall t | t in a :: t in a + b;
    assert forall t | t in b :: t in a + b;
  }

  lemma FieldDocument(tag: string, text: string)
    requires IsName(tag) && '<' !in text
    ensures IsDocument(Field(tag, text))
  {
  }

  predicate IsPassed(t: Token) {
    IsToken(t) && t != Tag("ResourceRecordSet")
  }

  /** Nothing in it opens a record set. */
  predicate ArePassed(tokens: seq<Token>) {
    forall i | 0 <= i < |tokens| :: IsPassed(tokens[i])
  }

  lemma PassedDocument(tokens: seq<Token>)
    requires ArePassed(tokens)
    ensures IsDocument(tokens) && Tag("ResourceRecordSet") !in tokens
  {
  }

  lemma PassedConcat(a: seq<Token>, b: seq<Token>)
    requires ArePassed(a) && ArePassed(b)
    ensures ArePassed(a + b)
  {
  }

  lemma LinePassed(width: nat, tag: string)
    requires IsName(tag) && tag != "ResourceRecordSet"
    ensures ArePassed(Line(width, tag))
  {
  }

  lemma PrologPassed()
    ensures ArePassed(Prolog())
  {
    assert |"ResourceRecordSet"| == 17;
    LinePassed(0, Request());
    PassedConcat([Tag(Declaration())], Line(0, Request()));
  }

  lemma OpeningPassed(action: string)
    requires '<' !in action
    ensures ArePassed(ChangeOpening(action))
  {
    assert |"ResourceRecordSet"| == 17;
    LinePassed(2, "ChangeBatch");
    LinePassed(4, "Changes");
    LinePassed(6, "Change");
    PassedConcat(Line(4, "Changes"), Line(6, "Change"));
    PassedConcat(Line(2, "ChangeBatch"), Line(4, "Changes") + Line(6, "Change"));
    ActionPassed(action);
    PassedConcat(Field("Action", action), [Gap(8)]);
    PassedConcat([Gap(8)], Field("Action", action) + [Gap(8)]);
    PassedConcat(Line(2, "ChangeBatch") + (Line(4, "Changes") + Line(6, "Change")),
      [Gap(8)] + (Field("Action", action) + [Gap(8)]));
  }

  lemma ActionPassed(action: string)
    requires '<' !in action
    ensures ArePassed(Field("Action", action)) && ArePassed([Gap(8)])
  {
    assert |"ResourceRecordSet"| == 17;
  }

  lemma HeadTokens(change: Change)
    ensures IsDocument(Head(change)) && Tag("ResourceRecordSet") !in Head(change)
  {
    PrologPassed();
    OpeningPassed(Label(change));
    PassedConcat(Prolog(), ChangeOpening(Label(change)));
    PassedDocument(Head(change));
  }

  lemma TailTokens()
    ensures IsDocument(Tail()) && Tag("ResourceRecordSet") !in Tail()
  {
    assert |"ResourceRecordSet"| == 17;
    LinePassed(6, "/Change");
    LinePassed(4, "/Changes");
    LinePassed(2, "/ChangeBatch");
    LinePassed(0, "/ChangeResourceRecordSetsRequest");
    PassedConcat(Line(6, "/Change"), Line(4, "/Changes"));
    PassedConcat(Line(2, "/ChangeBatch"), Line(0, "/ChangeResourceRecordSetsRequest"));
    PassedDocument(Tail());
  }

  lemma ValueDocument(text: string)
    requires '<' !in text
    ensures IsDocument(Element("ResourceRecord", Field("Value", text)))
  {
    FieldDocument("Value", text);
  }

  lemma {:induction false} ValuesDocument(records: Rrset)
    ensures IsDocument(Values(records))
  {
    if records != [] {
      var line := FormatTlsaRdata(records[0]);
      EscapeOnce(line);
      EntitiesHide(line);
      ValueDocument(XmlEscape(line));
      ValuesDocument(records[1..]);
      DocumentConcat(ValueTokens(records[0]), Values(records[1..]));
    }
  }

  lemma InsideRestDocument(records: Rrset, ttl: nat)
    ensures IsDocument(InsideRest(records, ttl))
  {
    DecimalDigits(ttl);
    FieldDocument("TTL", Decimal(ttl));
    ValuesDocument(records);
    DocumentConcat(Values(records), InsideEnd());
    InsideRestJoined(Field("TTL", Decimal(ttl)), Values(records) + InsideEnd());
  }

  lemma InsideRestJoined(field: seq<Token>, listed: seq<Token>)
    requires IsDocument(field) && IsDocument(listed)
    ensures IsDocument([Gap(10)] + (field + ([Gap(10), Tag("ResourceRecords")] + listed)))
  {
  }

  lemma InsideDocument(name: string, records: Rrset, ttl: nat)
    ensures IsDocument(Inside(name, records, ttl))
  {
    EscapeOnce(name);
    EntitiesHide(name);
    InsideRestDocument(records, ttl);
    InsideHeadDocument(XmlEscape(name), InsideRest(records, ttl));
  }

  lemma InsideHeadDocument(text: string, rest: seq<Token>)
    requires '<' !in text && IsDocument(rest)
    ensures IsDocument([Gap(10)] + (Field("Name", text) + ([Gap(10)] + (Field("Type", "TLSA") + rest))))
  {
    FieldDocument("Name", text);
    FieldDocument("Type", "TLSA");
    var typed := Field("Type", "TLSA") + rest;
    DocumentConcat(Field("Type", "TLSA"), rest);
    DocumentConcat([Gap(10)], typed);
    DocumentConcat(Field("Name", text), [Gap(10)] + typed);
    DocumentConcat([Gap(10)], Field("Name", text) + ([Gap(10)] + typed));
  }

  function Wrapped(head: seq<Token>, tag: string, inside: seq<Token>, tail: seq<Token>): seq<Token> {
    head + ([Tag(tag)] + (inside + ([Tag("/" + tag)] + tail)))
  }

  lemma WrappedDocument(head: seq<Token>, tag: string, inside: seq<Token>, tail: seq<Token>)
    requires IsDocument(head) && IsDocument(inside) && IsDocument(tail) && IsName(tag)
    ensures IsDocument(Wrapped(head, tag, inside, tail))
  {
  }

  lemma WrappedOnce(head: seq<Token>, tag: string, inside: seq<Token>, tail: seq<Token>)
    requires Tag(tag) !in head && Tag("/" + tag) !in inside && Tag(tag) !in tail
    ensures Enclosed(Wrapped(head, tag, inside, tail), tag) == [inside]
  {
    SplitAt(head, inside + ([Tag("/" + tag)] + tail), tag);
    SplitAt(inside, tail, "/" + tag);
    EnclosedPast(tail, [], tag);
    assert tail + [] == tail && [inside] + [] == [inside];
  }

  lemma {:induction false} ValuesHoldNoSet(records: Rrset)
    ensures Tag("/ResourceRecordSet") !in Values(records)
  {
    if records != [] {
      ValuesHoldNoSet(records[1..]);
      assert "/ResourceRecordSet"[0] == '/' && |"/ResourceRecordSet"| == 18;
    }
  }

  lemma InsideHoldsNoSet(name: string, records: Rrset, ttl: nat)
    ensures Tag("/ResourceRecordSet") !in Inside(name, records, ttl)
  {
    ValuesHoldNoSet(records);
    assert |"/ResourceRecordSet"| == 18;
    assert Tag("/ResourceRecordSet") !in InsideRest(records, ttl);
  }

  /**
   * What the client sends, its own scanner reads back: one TLSA record set with the same records in
   * the same order. The owner name comes back as it was exactly if no character of it is escaped and
   * trimming leaves it alone: nothing turns the entities back into characters.
   */
  lemma ReadsBack(change: Change, name: string, records: Rrset, ttl: nat)
    requires AreKept(records)
    ensures var sets := ParseRrsets(Render(Document(change, name, records, ttl)));
      && |sets| == 1
      && sets[0].recordType == "TLSA"
      && Listed(sets[0].values) == records
      && (sets[0].name == name <==> IsKept(name))
  {
    HeadTokens(change);
    InsideDocument(name, records, ttl);
    InsideHoldsNoSet(name, records, ttl);
    TailTokens();
    assert "/" + "ResourceRecordSet" == "/ResourceRecordSet";
    ScanWrapped(Head(change), "ResourceRecordSet", Inside(name, records, ttl), Tail());
    OneSet(Render(Inside(name, records, ttl)));
    RrsetInside(name, records, ttl);
    ListedFormatted(records);
    NameSurvives(name);
  }

  lemma ScanWrapped(head: seq<Token>, tag: string, inside: seq<Token>, tail: seq<Token>)
    requires IsDocument(head) && IsDocument(inside) && IsDocument(tail) && IsName(tag)
    requires Tag(tag) !in head && Tag("/" + tag) !in inside && Tag(tag) !in tail
    ensures Blocks(Render(Wrapped(head, tag, inside, tail)), tag) == [Render(inside)]
  {
    WrappedDocument(head, tag, inside, tail);
    WrappedOnce(head, tag, inside, tail);
    ScanAgrees(Wrapped(head, tag, inside, tail), tag);
    assert RenderAll([inside]) == [Render(inside)] + RenderAll([]);
  }

  lemma OneSet(block: string)
    ensures RrsetsIn([block]) == RrsetIn(block)
  {
    assert RrsetsIn([block]) == RrsetIn(block) + [];
  }

  lemma TextsAgree(tokens: seq<Token>, tag: string)
    requires IsDocument(tokens) && IsName(tag)
    ensures Texts(Render(tokens), tag) == TokenTexts(tokens, tag)
  {
    ScanAgrees(tokens, tag);
  }

  lemma RrsetOf(block: string, name: string, values: seq<string>)
    requires First(Texts(block, "Name")) == Some(name) && First(Texts(block, "Type")) == Some("TLSA")
    requires Texts(block, "Value") == values
    ensures RrsetIn(block) == [ParsedRrset(name, "TLSA", values)]
  {
  }

  lemma TagNames()
    ensures IsName("Name") && IsName("Type") && IsName("Value")
  {
  }

  lemma RrsetOfTokens(inside: seq<Token>, name: string, values: seq<string>)
    requires IsDocument(inside) && TokenTexts(inside, "Value") == values
    requires First(TokenTexts(inside, "Name")) == Some(name) && First(TokenTexts(inside, "Type")) == Some("TLSA")
    ensures RrsetIn(Render(inside)) == [ParsedRrset(name, "TLSA", values)]
  {
    TagNames();
    TextsAgree(inside, "Name");
    TextsAgree(inside, "Type");
    TextsAgree(inside, "Value");
    RrsetOf(Render(inside), name, values);
  }

  lemma RrsetInside(name: string, records: Rrset, ttl: nat)
    requires AreKept(records)
    ensures RrsetIn(Render(Inside(name, records, ttl)))
         == [ParsedRrset(Trim(XmlEscape(name)), "TLSA", Formatted(records))]
  {
    InsideDocument(name, records, ttl);
    NameText(name, records, ttl);
    TypeText(name, records, ttl);
    ValueFields(name, records, ttl);
    RrsetOfTokens(Inside(name, records, ttl), Trim(XmlEscape(name)), Formatted(records));
  }

  /** Data written by the hex encoder always qualifies. */
  lemma {:induction false} HexIsKept(data: seq<Byte>)
    ensures var text := Hex.Encode(data); NoSpace(text) && Lower(text) == text && IsPlain(text)
  {
    if data != [] {
      HexIsKept(data[1..]);
      var pair := [Hex.Digit(data[0] / 16), Hex.Digit(data[0] % 16)];
      HexDigitIsKept(data[0] / 16);
      HexDigitIsKept(data[0] % 16);
      LowerConcat(pair, Hex.Encode(data[1..]));
      assert Lower(pair) == pair;
    }
  }

  /** Records as they are made and listed: their data is hexadecimal, in lower case. */
  ghost predicate AreHex(records: Rrset) {
    forall r | r in records :: exists data: seq<Byte> :: data != [] && r.certificate == Hex.Encode(data)
  }

  /** So every list of such records is read back. */
  lemma HexReadsBack(change: Change, name: string, records: Rrset, ttl: nat)
    requires AreHex(records)
    ensures var sets := ParseRrsets(Render(Document(change, name, records, ttl)));
      |sets| == 1 && sets[0].recordType == "TLSA" && Listed(sets[0].values) == records && (sets[0].name == name <==> IsKept(name))
  {
    forall r | r in records ensures IsData(r.certificate) && IsPlain(r.certificate) {
      var data: seq<Byte> :| data != [] && r.certificate == Hex.Encode(data);
      HexIsKept(data);
    }
    ReadsBack(change, name, records, ttl);
  }

  lemma HexDigitIsKept(n: nat)
    requires n < 16
    ensures var c := Hex.Digit(n); !IsSpace(c) && LowerChar(c) == c && !IsSpecial(c)
  {
  }
}
