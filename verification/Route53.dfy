/** The Route 53 client's requests and listings (src/route53.rs:428-519). */
module Route53 {
  import opened Text
  import opened Publish
  import opened Rdata
  import opened Xml
  import opened Escaping
  import opened ChangeDocument
  import opened ChangeShape

  // ---- building it ----

  lemma RenderOne(t: Token)
    ensures Render([t]) == RenderToken(t)
  {
    assert Render([t]) == RenderToken(t) + "";
  }

  lemma DeclarationTag()
    ensures OpenTag(Declaration()) == "<?xml version=\"1.0\" encoding=\"UTF-8\"?>"
  {
  }

  lemma RequestTag()
    ensures OpenTag(Request()) == "<" + ("ChangeResourceRecordSetsRequest xmlns="
              + (("\"https://route53.amazonaws.com/doc/" + "2013-04-01/\"") + ">"))
  {
    RequestParts("<", Opening(), Namespace(), ">");
  }

  lemma RequestParts(a: string, b: string, c: string, d: string)
    ensures a + (b + c) + d == a + (b + (c + d))
  {
    Associative(b, c, d);
  }

  /** The document begins with its declaration and the request on a line of its own. */
  lemma PrologText()
    ensures Render(Prolog()) == OpenTag(Declaration()) + (Indent(0) + OpenTag(Request()))
  {
    RenderConcat([Tag(Declaration())], Line(0, Request()));
    RenderOne(Tag(Declaration()));
    LineText(0, Request());
  }

  lemma LineText(width: nat, tag: string)
    ensures Render(Line(width, tag)) == Indent(width) + OpenTag(tag)
  {
    assert Line(width, tag) == [Gap(width)] + [Tag(tag)];
    RenderConcat([Gap(width)], [Tag(tag)]);
    RenderOne(Gap(width));
    RenderOne(Tag(tag));
  }

  /** A line break and so many spaces: nothing but white space stands between the elements. */
  lemma {:induction false} IndentIs(width: nat)
    ensures |Indent(width)| == width + 1 && Indent(width)[0] == '\n'
    ensures forall i | 0 < i <= width :: Indent(width)[i] == ' '
  {
    if width > 0 {
      IndentIs(width - 1);
    }
  }

  function RecordText(text: string): string {
    OpenTag("ResourceRecord") + ((OpenTag("Value") + (text + CloseTag("Value"))) + CloseTag("ResourceRecord"))
  }

  lemma RenderElement(tag: string, inside: seq<Token>)
    ensures Render(Element(tag, inside)) == OpenTag(tag) + (Render(inside) + CloseTag(tag))
  {
    RenderCons(Tag(tag), inside + [Tag("/" + tag)]);
    RenderConcat(inside, [Tag("/" + tag)]);
    RenderOne(Tag("/" + tag));
  }

  lemma RenderField(tag: string, text: string)
    ensures Render(Field(tag, text)) == OpenTag(tag) + (text + CloseTag(tag))
  {
    assert Field(tag, text) == Element(tag, [Chars(text)]);
    RenderElement(tag, [Chars(text)]);
    RenderOne(Chars(text));
  }

  lemma RenderValue(r: DaneTlsa)
    ensures Render(ValueTokens(r)) == RecordText(XmlEscape(FormatTlsaRdata(r)))
  {
    RenderElement("ResourceRecord", Field("Value", XmlEscape(FormatTlsaRdata(r))));
    RenderField("Value", XmlEscape(FormatTlsaRdata(r)));
  }

  function InsideStart(name: string, ttl: nat): seq<Token> {
    [Gap(10)] + (Field("Name", XmlEscape(name)) + ([Gap(10)] + (Field("Type", "TLSA")
    + ([Gap(10)] + (Field("TTL", Decimal(ttl)) + [Gap(10), Tag("ResourceRecords")])))))
  }

  /** The template before and after the values. */
  function Before(change: Change, name: string, ttl: nat): seq<Token> {
    Head(change) + ([Tag("ResourceRecordSet")] + InsideStart(name, ttl))
  }

  function After(): seq<Token> {
    InsideEnd() + ([Tag("/" + "ResourceRecordSet")] + Tail())
  }

  lemma RegroupWrapped<T>(head: seq<T>, open: seq<T>, start: seq<T>, values: seq<T>, end: seq<T>, tail: seq<T>)
    ensures head + (open + ((start + (values + end)) + tail)) == (head + (open + start)) + (values + (end + tail))
  {
    Associative(values, end, tail);
    Associative(start, values + end, tail);
    Associative(open, start, values + (end + tail));
    Associative(head, open + start, values + (end + tail));
  }

  lemma Template(change: Change, name: string, records: Rrset, ttl: nat)
    ensures Document(change, name, records, ttl) == Before(change, name, ttl) + (Values(records) + After())
  {
    Regroup([Gap(10)], Field("Name", XmlEscape(name)), [Gap(10)], Field("Type", "TLSA"), [Gap(10)],
      Field("TTL", Decimal(ttl)), [Gap(10), Tag("ResourceRecords")], Values(records) + InsideEnd());
    RegroupWrapped(Head(change), [Tag("ResourceRecordSet")], InsideStart(name, ttl), Values(records), InsideEnd(),
      [Tag("/" + "ResourceRecordSet")] + Tail());
  }

  lemma ValuesStep(records: Rrset, i: nat)
    requires i < |records|
    ensures Render(Values(records[i..]))
         == RecordText(XmlEscape(FormatTlsaRdata(records[i]))) + Render(Values(records[i + 1..]))
  {
    assert records[i..][1..] == records[i + 1..];
    RenderConcat(ValueTokens(records[i]), Values(records[i + 1..]));
    RenderValue(records[i]);
  }

  lemma Assembled(change: Change, name: string, records: Rrset, ttl: nat)
    ensures Render(Document(change, name, records, ttl))
         == Render(Before(change, name, ttl)) + (Render(Values(records)) + Render(After()))
  {
    Template(change, name, records, ttl);
    RenderConcat(Values(records), After());
    RenderConcat(Before(change, name, ttl), Values(records) + After());
  }

  lemma ValuesTurn(records: Rrset, i: nat, values: string, all: string)
    requires i < |records| && values + Render(Values(records[i..])) == all
    ensures values + RecordText(XmlEscape(FormatTlsaRdata(records[i]))) + Render(Values(records[i + 1..])) == all
  {
    ValuesStep(records, i);
    Associative(values, RecordText(XmlEscape(FormatTlsaRdata(records[i]))), Render(Values(records[i + 1..])));
  }

  /** The loop of `change_batch`. */
  method ValuesText(records: Rrset) returns (values: string)
    ensures values == Render(Values(records))
  {
    values := "";
    ghost var all := Render(Values(records));
    assert records[0..] == records && values + all == all;
    for i := 0 to |records|
      invariant values + Render(Values(records[i..])) == all
    {
      ValuesTurn(records, i, values, all);
      values := values + RecordText(XmlEscape(FormatTlsaRdata(records[i])));
    }
    assert records[|records|..] == [] && values + Render(Values([])) == values;
  }

  /** `change_batch`: the values are collected, then put into the template. */
  method ChangeBatch(change: Change, name: string, records: Rrset, ttl: nat) returns (xml: string)
    ensures xml == Render(Document(change, name, records, ttl))
    ensures Texts(xml, "Action") == [if change.Upsert? then "UPSERT" else "DELETE"] && Texts(xml, "TTL") == [Decimal(ttl)]
  {
    ActionAndTtl(change, name, records, ttl);
    var values := ValuesText(records);
    Assembled(change, name, records, ttl);
    xml := Render(Before(change, name, ttl)) + (values + Render(After()));
  }
}
