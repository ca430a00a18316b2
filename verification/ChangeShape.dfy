/** What else the document says: its action, its time to live, and which element stands in which. */
module ChangeShape {
  import opened Text
  import opened Publish
  import opened Rdata
  import opened Xml
  import opened Escaping
  import opened ChangeDocument

  lemma Regroup<T>(a: seq<T>, b: seq<T>, c: seq<T>, d: seq<T>, e: seq<T>, f: seq<T>, g: seq<T>, rest: seq<T>)
    ensures a + (b + (c + (d + (e + (f + (g + rest)))))) == (a + (b + (c + (d + (e + (f + g)))))) + rest
  {
    Associative(f, g, rest);
    Associative(e, f + g, rest);
    Associative(d, e + (f + g), rest);
    Associative(c, d + (e + (f + g)), rest);
    Associative(b, c + (d + (e + (f + g))), rest);
    Associative(a, b + (c + (d + (e + (f + g)))), rest);
  }

  // ---- the action and the time to live ----

  lemma TextNone(tokens: seq<Token>, tag: string)
    requires Tag(tag) !in tokens
    ensures TokenTexts(tokens, tag) == []
  {
    TextPast(tokens, [], tag);
    assert tokens + [] == tokens;
  }

  /** The one field of its name. */
  lemma TextOnce(pre: seq<Token>, tag: string, text: string, post: seq<Token>)
    requires Tag(tag) !in pre && Tag(tag) !in post
    requires text != "" && !IsSpace(text[0]) && !IsSpace(text[|text| - 1])
    ensures TokenTexts(pre + (Field(tag, text) + post), tag) == [text]
  {
    TextPast(pre, Field(tag, text) + post, tag);
    TextField(text, post, tag);
    TextNone(post, tag);
    TrimKept(text);
  }

  lemma {:induction false} ValuesHoldNo(records: Rrset, tag: string)
    requires tag != "" && tag[0] != '/' && tag != "ResourceRecord" && tag != "Value"
    ensures Tag(tag) !in Values(records)
  {
    if records != [] {
      ValuesHoldNo(records[1..], tag);
    }
  }

  /** What comes after the time to live. */
  function AfterTtl(records: Rrset): seq<Token> {
    ([Gap(10), Tag("ResourceRecords")] + (Values(records) + InsideEnd())) + ([Tag("/" + "ResourceRecordSet")] + Tail())
  }

  /** What comes after the action. */
  function FromAction(name: string, records: Rrset, ttl: nat): seq<Token> {
    [Gap(8)] + ([Tag("ResourceRecordSet")] + (Inside(name, records, ttl) + ([Tag("/" + "ResourceRecordSet")] + Tail())))
  }

  function BeforeAction(): seq<Token> {
    Prolog() + ((Line(2, "ChangeBatch") + (Line(4, "Changes") + Line(6, "Change"))) + [Gap(8)])
  }

  function BeforeTtl(change: Change, name: string): seq<Token> {
    Head(change) + ([Tag("ResourceRecordSet")]
    + ([Gap(10)] + (Field("Name", XmlEscape(name)) + ([Gap(10)] + (Field("Type", "TLSA") + [Gap(10)])))))
  }

  lemma RegroupAction<T>(p: seq<T>, lines: seq<T>, gap: seq<T>, field: seq<T>, gap': seq<T>, rest: seq<T>)
    ensures (p + (lines + (gap + (field + gap')))) + rest == (p + (lines + gap)) + (field + (gap' + rest))
  {
    Associative(field, gap', rest);
    Associative(gap, field + gap', rest);
    Associative(lines, gap + (field + gap'), rest);
    Associative(p, lines + (gap + (field + gap')), rest);
    Associative(lines, gap, field + (gap' + rest));
    Associative(p, lines + gap, field + (gap' + rest));
  }

  lemma ActionSplits(change: Change, name: string, records: Rrset, ttl: nat)
    ensures Document(change, name, records, ttl)
         == BeforeAction() + (Field("Action", Label(change)) + FromAction(name, records, ttl))
  {
    RegroupAction(Prolog(), Line(2, "ChangeBatch") + (Line(4, "Changes") + Line(6, "Change")), [Gap(8)],
      Field("Action", Label(change)), [Gap(8)],
      [Tag("ResourceRecordSet")] + (Inside(name, records, ttl) + ([Tag("/" + "ResourceRecordSet")] + Tail())));
  }

  lemma RegroupTtl<T>(h: seq<T>, o: seq<T>, a: seq<T>, b: seq<T>, c: seq<T>, d: seq<T>, e: seq<T>, f: seq<T>, g: seq<T>, rest: seq<T>)
    ensures h + (o + ((a + (b + (c + (d + (e + (f + g)))))) + rest))
         == (h + (o + (a + (b + (c + (d + e)))))) + (f + (g + rest))
  {
    var tail := f + (g + rest);
    Associative(f, g, rest);
    Associative(e, f + g, rest);
    Associative(d, e + (f + g), rest);
    Associative(c, d + (e + (f + g)), rest);
    Associative(b, c + (d + (e + (f + g))), rest);
    Associative(a, b + (c + (d + (e + (f + g)))), rest);
    Associative(d, e, tail);
    Associative(c, d + e, tail);
    Associative(b, c + (d + e), tail);
    Associative(a, b + (c + (d + e)), tail);
    Associative(o, a + (b + (c + (d + e))), tail);
    Associative(h, o + (a + (b + (c + (d + e)))), tail);
  }

  lemma TtlSplits(change: Change, name: string, records: Rrset, ttl: nat)
    ensures Document(change, name, records, ttl)
         == BeforeTtl(change, name) + (Field("TTL", Decimal(ttl)) + AfterTtl(records))
  {
    RegroupTtl(Head(change), [Tag("ResourceRecordSet")], [Gap(10)], Field("Name", XmlEscape(name)), [Gap(10)],
      Field("Type", "TLSA"), [Gap(10)], Field("TTL", Decimal(ttl)),
      [Gap(10), Tag("ResourceRecords")] + (Values(records) + InsideEnd()), [Tag("/" + "ResourceRecordSet")] + Tail());
  }

  predicate Lacks(tokens: seq<Token>, tag: string) {
    Tag(tag) !in tokens
  }

  lemma LacksConcat(a: seq<Token>, b: seq<Token>, tag: string)
    requires Lacks(a, tag) && Lacks(b, tag)
    ensures Lacks(a + b, tag)
  {
  }

  lemma FieldLacks(name: string, text: string, tag: string)
    requires tag != name && tag != "" && tag[0] != '/'
    ensures Lacks(Field(name, text), tag)
  {
  }

  lemma PrologLacks(tag: string)
    requires |tag| <= 30
    ensures Lacks(Prolog(), tag)
  {
  }

  lemma LinesLack(tag: string)
    requires tag != "ChangeBatch" && tag != "Changes" && tag != "Change"
    ensures Lacks((Line(2, "ChangeBatch") + (Line(4, "Changes") + Line(6, "Change"))) + [Gap(8)], tag)
  {
  }

  lemma TailLacks(tag: string)
    requires tag != "" && tag[0] != '/'
    ensures Lacks([Tag("/" + "ResourceRecordSet")] + Tail(), tag)
  {
  }

  lemma InsideEndLacks(tag: string)
    requires tag != "" && tag[0] != '/'
    ensures Lacks(InsideEnd(), tag)
  {
  }

  /** The records and what follows them have no field of their own. */
  lemma AfterTtlLacks(records: Rrset, tag: string)
    requires tag != "" && tag[0] != '/' && tag != "ResourceRecords" && tag != "ResourceRecord" && tag != "Value"
    ensures Lacks(AfterTtl(records), tag)
  {
    ValuesHoldNo(records, tag);
    InsideEndLacks(tag);
    TailLacks(tag);
    LacksConcat(Values(records), InsideEnd(), tag);
    LacksConcat([Gap(10), Tag("ResourceRecords")], Values(records) + InsideEnd(), tag);
    LacksConcat([Gap(10), Tag("ResourceRecords")] + (Values(records) + InsideEnd()), [Tag("/" + "ResourceRecordSet")] + Tail(), tag);
  }

  lemma ShortNames()
    ensures "Action" != "Change" && "Action" != "Changes" && "Action" != "ChangeBatch"
    ensures "TTL" != "Change" && "TTL" != "Changes" && "TTL" != "ChangeBatch" && "TTL" != "Action"
    ensures "Action" != "Name" && "Action" != "Type" && "Action" != "TTL" && "TTL" != "Name" && "TTL" != "Type"
    ensures "Action"[0] != '/' && "TTL"[0] != '/' && |"Action"| == 6 && |"TTL"| == 3 && |"Value"| == 5
  {
    assert "Action"[0] == 'A' && "Change"[0] == 'C';
  }

  lemma InsideLacksAction(name: string, records: Rrset, ttl: nat)
    ensures Lacks(Inside(name, records, ttl), "Action")
  {
    ShortNames();
    FieldLacks("Name", XmlEscape(name), "Action");
    FieldLacks("Type", "TLSA", "Action");
    FieldLacks("TTL", Decimal(ttl), "Action");
    ValuesHoldNo(records, "Action");
    InsideEndLacks("Action");
    LacksConcat(Values(records), InsideEnd(), "Action");
    JoinedLacks(Field("TTL", Decimal(ttl)), Values(records) + InsideEnd(), "Action");
    LacksConcat(Field("Type", "TLSA"), InsideRest(records, ttl), "Action");
    LacksConcat([Gap(10)], Field("Type", "TLSA") + InsideRest(records, ttl), "Action");
    LacksConcat(Field("Name", XmlEscape(name)), [Gap(10)] + (Field("Type", "TLSA") + InsideRest(records, ttl)), "Action");
  }

  lemma JoinedLacks(field: seq<Token>, listed: seq<Token>, tag: string)
    requires Lacks(field, tag) && Lacks(listed, tag) && tag != "ResourceRecords"
    ensures Lacks([Gap(10)] + (field + ([Gap(10), Tag("ResourceRecords")] + listed)), tag)
  {
  }

  lemma FromActionLacks(name: string, records: Rrset, ttl: nat)
    ensures Lacks(FromAction(name, records, ttl), "Action")
  {
    ShortNames();
    InsideLacksAction(name, records, ttl);
    TailLacks("Action");
    var tail := [Tag("/" + "ResourceRecordSet")] + Tail();
    assert |"ResourceRecordSet"| == 17;
    LacksConcat(Inside(name, records, ttl), tail, "Action");
    LacksConcat([Tag("ResourceRecordSet")], Inside(name, records, ttl) + tail, "Action");
  }

  lemma ActionText(change: Change, name: string, records: Rrset, ttl: nat)
    ensures TokenTexts(Document(change, name, records, ttl), "Action") == [if change.Upsert? then "UPSERT" else "DELETE"]
  {
    ShortNames();
    ActionSplits(change, name, records, ttl);
    PrologLacks("Action");
    LinesLack("Action");
    LacksConcat(Prolog(), (Line(2, "ChangeBatch") + (Line(4, "Changes") + Line(6, "Change"))) + [Gap(8)], "Action");
    FromActionLacks(name, records, ttl);
    LabelEnds(change);
    TextOnce(BeforeAction(), "Action", Label(change), FromAction(name, records, ttl));
  }

  lemma LabelEnds(change: Change)
    ensures Label(change) == if change.Upsert? then "UPSERT" else "DELETE"
    ensures !IsSpace(Label(change)[0]) && !IsSpace(Label(change)[|Label(change)| - 1])
  {
  }

  lemma HeadLacksTtl(change: Change)
    ensures Lacks(Head(change), "TTL")
  {
    ShortNames();
    PrologLacks("TTL");
    LinesLack("TTL");
    FieldLacks("Action", Label(change), "TTL");
    var lines, field := Line(2, "ChangeBatch") + (Line(4, "Changes") + Line(6, "Change")), Field("Action", Label(change));
    LacksConcat(field, [Gap(8)], "TTL");
    LacksConcat(lines + [Gap(8)], field + [Gap(8)], "TTL");
    Associative(lines, [Gap(8)], field + [Gap(8)]);
    LacksConcat(Prolog(), ChangeOpening(Label(change)), "TTL");
  }

  lemma BeforeTtlLacks(change: Change, name: string)
    ensures Lacks(BeforeTtl(change, name), "TTL")
  {
    ShortNames();
    HeadLacksTtl(change);
    FieldLacks("Name", XmlEscape(name), "TTL");
    FieldLacks("Type", "TLSA", "TTL");
    assert |"ResourceRecordSet"| == 17;
    FieldsLack(Field("Name", XmlEscape(name)), Field("Type", "TLSA"), "TTL");
    LacksConcat(Head(change), [Tag("ResourceRecordSet")]
      + ([Gap(10)] + (Field("Name", XmlEscape(name)) + ([Gap(10)] + (Field("Type", "TLSA") + [Gap(10)])))), "TTL");
  }

  lemma FieldsLack(a: seq<Token>, b: seq<Token>, tag: string)
    requires Lacks(a, tag) && Lacks(b, tag) && tag != "ResourceRecordSet"
    ensures Lacks([Tag("ResourceRecordSet")] + ([Gap(10)] + (a + ([Gap(10)] + (b + [Gap(10)])))), tag)
  {
  }

  lemma TtlText(change: Change, name: string, records: Rrset, ttl: nat)
    ensures TokenTexts(Document(change, name, records, ttl), "TTL") == [Decimal(ttl)]
  {
    ShortNames();
    TtlSplits(change, name, records, ttl);
    BeforeTtlLacks(change, name);
    assert |"ResourceRecords"| == 15 && |"ResourceRecord"| == 14;
    AfterTtlLacks(records, "TTL");
    DecimalDigits(ttl);
    TextOnce(BeforeTtl(change, name), "TTL", Decimal(ttl), AfterTtl(records));
  }

  lemma WholeDocument(change: Change, name: string, records: Rrset, ttl: nat)
    ensures IsDocument(Document(change, name, records, ttl))
  {
    HeadTokens(change);
    InsideDocument(name, records, ttl);
    TailTokens();
    assert |"ResourceRecordSet"| == 17;
    WrappedDocument(Head(change), "ResourceRecordSet", Inside(name, records, ttl), Tail());
  }

  /** The scanner finds the one action asked for, and the one time to live. */
  lemma ActionAndTtl(change: Change, name: string, records: Rrset, ttl: nat)
    ensures var xml := Render(Document(change, name, records, ttl));
      Texts(xml, "Action") == [if change.Upsert? then "UPSERT" else "DELETE"] && Texts(xml, "TTL") == [Decimal(ttl)]
  {
    WholeDocument(change, name, records, ttl);
    TextsAgree(Document(change, name, records, ttl), "Action");
    TextsAgree(Document(change, name, records, ttl), "TTL");
    ActionText(change, name, records, ttl);
    TtlText(change, name, records, ttl);
  }

  // ---- one element inside the other ----

  /** The change as it is nested: its action and its record set. */
  function InChange(change: Change, name: string, records: Rrset, ttl: nat): seq<Token> {
    Wrapped([Gap(8)] + (Field("Action", Label(change)) + [Gap(8)]), "ResourceRecordSet", Inside(name, records, ttl), [Gap(6)])
  }

  function InChanges(inside: seq<Token>): seq<Token> {
    Wrapped([Gap(6)], "Change", inside, [Gap(4)])
  }

  function InBatch(inside: seq<Token>): seq<Token> {
    Wrapped([Gap(4)], "Changes", inside, [Gap(2)])
  }

  function Nested(change: Change, name: string, records: Rrset, ttl: nat): seq<Token> {
    Wrapped(Prolog() + [Gap(2)], "ChangeBatch", InBatch(InChanges(InChange(change, name, records, ttl))),
      Line(0, "/ChangeResourceRecordSetsRequest"))
  }

  /** Closing what stands around an element, one bracket further out. */
  lemma Outwards<T>(a: seq<T>, b: seq<T>, inside: seq<T>, c: seq<T>, d: seq<T>, rest: seq<T>)
    ensures (a + (b + (inside + (c + d)))) + rest == a + (b + (inside + (c + (d + rest))))
  {
    Associative(c, d, rest);
    Associative(inside, c + d, rest);
    Associative(b, inside + (c + d), rest);
    Associative(a, b + (inside + (c + d)), rest);
  }

  lemma Inwards<T>(p: seq<T>, a: seq<T>, b: seq<T>, c: seq<T>, d: seq<T>, e: seq<T>, f: seq<T>, rest: seq<T>)
    ensures (p + (((a + b) + ((c + d) + (e + f))) + rest)) == (p + a) + (b + (c + (d + (e + (f + rest)))))
  {
    Associative(e, f, rest);
    Associative(c + d, e + f, rest);
    Associative(c, d, e + (f + rest));
    Associative(a + b, (c + d) + (e + f), rest);
    Associative(a, b, c + (d + (e + (f + rest))));
    Associative(p, a, b + (c + (d + (e + (f + rest)))));
  }

  lemma TailUnfolds<T>(a: seq<T>, b: seq<T>, c: seq<T>, d: seq<T>, e: seq<T>, f: seq<T>, z: seq<T>)
    ensures ((a + b) + (c + d)) + ((e + f) + z) == a + (b + (c + (d + (e + (f + z)))))
  {
    Associative(e, f, z);
    Associative(a + b, c + d, e + (f + z));
    Associative(c, d, e + (f + z));
    Associative(a, b, c + (d + (e + (f + z))));
  }

  lemma LineIs(width: nat, tag: string)
    ensures Line(width, tag) == [Gap(width)] + [Tag(tag)]
  {
  }

  lemma HeadUnfolds(change: Change, rest: seq<Token>)
    ensures Head(change) + rest == (Prolog() + [Gap(2)]) + ([Tag("ChangeBatch")] + ([Gap(4)] + ([Tag("Changes")]
      + ([Gap(6)] + ([Tag("Change")] + (([Gap(8)] + (Field("Action", Label(change)) + [Gap(8)])) + rest))))))
  {
    LineIs(2, "ChangeBatch");
    LineIs(4, "Changes");
    LineIs(6, "Change");
    var field := [Gap(8)] + (Field("Action", Label(change)) + [Gap(8)]);
    var lines := Line(2, "ChangeBatch") + (Line(4, "Changes") + Line(6, "Change"));
    Associative(Prolog(), lines + field, rest);
    Associative(lines, field, rest);
    Inwards(Prolog(), [Gap(2)], [Tag("ChangeBatch")], [Gap(4)], [Tag("Changes")], [Gap(6)], [Tag("Change")], field + rest);
  }

  lemma TailIs()
    ensures Tail() == [Gap(6)] + ([Tag("/" + "Change")] + ([Gap(4)] + ([Tag("/" + "Changes")]
      + ([Gap(2)] + ([Tag("/" + "ChangeBatch")] + Line(0, "/ChangeResourceRecordSetsRequest"))))))
  {
    assert "/" + "Change" == "/Change" && "/" + "Changes" == "/Changes" && "/" + "ChangeBatch" == "/ChangeBatch";
    LineIs(6, "/Change");
    LineIs(4, "/Changes");
    LineIs(2, "/ChangeBatch");
    TailUnfolds([Gap(6)], [Tag("/Change")], [Gap(4)], [Tag("/Changes")], [Gap(2)], [Tag("/ChangeBatch")],
      Line(0, "/ChangeResourceRecordSetsRequest"));
  }

  lemma DocumentIsNested(change: Change, name: string, records: Rrset, ttl: nat)
    ensures Document(change, name, records, ttl) == Nested(change, name, records, ttl)
  {
    var field := [Gap(8)] + (Field("Action", Label(change)) + [Gap(8)]);
    var open, inside, close := [Tag("ResourceRecordSet")], Inside(name, records, ttl), [Tag("/" + "ResourceRecordSet")];
    var last := Line(0, "/ChangeResourceRecordSetsRequest");
    var batch := [Tag("/" + "ChangeBatch")] + last;
    var changes := [Tag("/" + "Changes")] + ([Gap(2)] + batch);
    var change' := [Tag("/" + "Change")] + ([Gap(4)] + changes);
    TailIs();
    HeadUnfolds(change, open + (inside + (close + Tail())));
    Outwards(field, open, inside, close, [Gap(6)], change');
    Outwards([Gap(6)], [Tag("Change")], InChange(change, name, records, ttl), [Tag("/" + "Change")], [Gap(4)], changes);
    Outwards([Gap(4)], [Tag("Changes")], InChanges(InChange(change, name, records, ttl)), [Tag("/" + "Changes")], [Gap(2)], batch);
  }

  /** No tag of this length, so none of any name that long. */
  predicate NoLength(tokens: seq<Token>, n: nat) {
    forall t | t in tokens :: t.Tag? ==> |t.name| != n
  }

  lemma NoLengthConcat(a: seq<Token>, b: seq<Token>, n: nat)
    requires NoLength(a, n) && NoLength(b, n)
    ensures NoLength(a + b, n)
  {
  }

  lemma FieldLength(tag: string, text: string, n: nat)
    requires n != |tag| && n != |tag| + 1
    ensures NoLength(Field(tag, text), n)
  {
  }

  lemma {:induction false} ValuesLength(records: Rrset, n: nat)
    requires n == 7 || n == 8 || n == 12
    ensures NoLength(Values(records), n)
  {
    if records != [] {
      var text := XmlEscape(FormatTlsaRdata(records[0]));
      FieldLength("Value", text, n);
      ElementLength("ResourceRecord", Field("Value", text), n);
      ValuesLength(records[1..], n);
      NoLengthConcat(ValueTokens(records[0]), Values(records[1..]), n);
    }
  }

  lemma ElementLength(tag: string, inside: seq<Token>, n: nat)
    requires n != |tag| && n != |tag| + 1 && NoLength(inside, n)
    ensures NoLength(Element(tag, inside), n)
  {
  }

  lemma InsideLength(name: string, records: Rrset, ttl: nat, n: nat)
    requires n == 7 || n == 8 || n == 12
    ensures NoLength(Inside(name, records, ttl), n)
  {
    FieldLength("Name", XmlEscape(name), n);
    FieldLength("Type", "TLSA", n);
    FieldLength("TTL", Decimal(ttl), n);
    ValuesLength(records, n);
    InsideEndLength(n);
    NoLengthConcat(Values(records), InsideEnd(), n);
    JoinedLength(Field("TTL", Decimal(ttl)), Values(records) + InsideEnd(), n);
    var rest := InsideRest(records, ttl);
    NoLengthConcat(Field("Type", "TLSA"), rest, n);
    NoLengthConcat([Gap(10)], Field("Type", "TLSA") + rest, n);
    NoLengthConcat(Field("Name", XmlEscape(name)), [Gap(10)] + (Field("Type", "TLSA") + rest), n);
    NoLengthConcat([Gap(10)], Field("Name", XmlEscape(name)) + ([Gap(10)] + (Field("Type", "TLSA") + rest)), n);
  }

  lemma InsideEndLength(n: nat)
    requires n != 16
    ensures NoLength(InsideEnd(), n)
  {
  }

  lemma JoinedLength(field: seq<Token>, listed: seq<Token>, n: nat)
    requires n != 15 && NoLength(field, n) && NoLength(listed, n)
    ensures NoLength([Gap(10)] + (field + ([Gap(10), Tag("ResourceRecords")] + listed)), n)
  {
  }

  lemma WrappedLength(head: seq<Token>, tag: string, inside: seq<Token>, tail: seq<Token>, n: nat)
    requires n != |tag| && n != |tag| + 1 && NoLength(head, n) && NoLength(inside, n) && NoLength(tail, n)
    ensures NoLength(Wrapped(head, tag, inside, tail), n)
  {
  }

  lemma ActionLength(change: Change, n: nat)
    requires n != 6 && n != 7
    ensures NoLength([Gap(8)] + (Field("Action", Label(change)) + [Gap(8)]), n)
  {
    FieldLength("Action", Label(change), n);
  }

  lemma InChangeLength(change: Change, name: string, records: Rrset, ttl: nat, n: nat)
    requires n == 8 || n == 12
    ensures NoLength(InChange(change, name, records, ttl), n)
  {
    InsideLength(name, records, ttl, n);
    ActionLength(change, n);
    assert |"ResourceRecordSet"| == 17;
    WrappedLength([Gap(8)] + (Field("Action", Label(change)) + [Gap(8)]), "ResourceRecordSet", Inside(name, records, ttl), [Gap(6)], n);
  }

  lemma WrappedLacks(head: seq<Token>, tag: string, inside: seq<Token>, tail: seq<Token>, other: string)
    requires Lacks(head, other) && Lacks(inside, other) && Lacks(tail, other) && other != tag && other != "/" + tag
    ensures Lacks(Wrapped(head, tag, inside, tail), other)
  {
  }

  lemma ActionLacks(action: string, other: string)
    requires other != "Action" && other != "/" + "Action"
    ensures Lacks([Gap(8)] + (Field("Action", action) + [Gap(8)]), other)
  {
  }

  lemma CloseNames()
    ensures |"/" + "Change"| == 7 && |"/" + "Action"| == 7 && |"Action"| == 6 && "/" + "Change" != "/" + "Action"
  {
    assert ("/" + "Change")[1] == 'C' && ("/" + "Action")[1] == 'A';
  }

  lemma InChangeKeepsOpen(change: Change, name: string, records: Rrset, ttl: nat)
    ensures Tag("/" + "Change") !in InChange(change, name, records, ttl)
  {
    CloseNames();
    InsideLength(name, records, ttl, 7);
    ActionLacks(Label(change), "/" + "Change");
    assert |"ResourceRecordSet"| == 17;
    WrappedLacks([Gap(8)] + (Field("Action", Label(change)) + [Gap(8)]), "ResourceRecordSet", Inside(name, records, ttl), [Gap(6)],
      "/" + "Change");
  }

  lemma InChangeDocument(change: Change, name: string, records: Rrset, ttl: nat)
    ensures IsDocument(InChange(change, name, records, ttl))
  {
    InsideDocument(name, records, ttl);
    ActionDocument(Label(change));
    assert |"ResourceRecordSet"| == 17 && IsName("ResourceRecordSet");
    WrappedDocument([Gap(8)] + (Field("Action", Label(change)) + [Gap(8)]), "ResourceRecordSet", Inside(name, records, ttl), [Gap(6)]);
  }

  lemma ActionDocument(action: string)
    requires '<' !in action
    ensures IsDocument([Gap(8)] + (Field("Action", action) + [Gap(8)]))
  {
    FieldDocument("Action", action);
  }

  lemma WrapperNames()
    ensures IsName("Change") && IsName("Changes") && IsName("ChangeBatch")
    ensures |"/" + "Changes"| == 8 && |"/" + "ChangeBatch"| == 12
  {
  }

  /** A batch of one list of one change, the change an action and a record set, the set with its records in a list. */
  lemma Nesting(change: Change, name: string, records: Rrset, ttl: nat)
    ensures var xml, inside := Render(Document(change, name, records, ttl)), InChange(change, name, records, ttl);
      && Blocks(xml, "ChangeBatch") == [Render(InBatch(InChanges(inside)))]
      && Blocks(Render(InBatch(InChanges(inside))), "Changes") == [Render(InChanges(inside))]
      && Blocks(Render(InChanges(inside)), "Change") == [Render(inside)]
      && Blocks(Render(inside), "ResourceRecordSet") == [Render(Inside(name, records, ttl))]
      && Blocks(Render(Inside(name, records, ttl)), "ResourceRecords") == [Render(Values(records))]
  {
    var inside := InChange(change, name, records, ttl);
    SetBlock(change, name, records, ttl);
    RecordsBlock(name, records, ttl);
    WrapperNames();
    DocumentIsNested(change, name, records, ttl);
    InChangeDocument(change, name, records, ttl);
    InChangeKeepsOpen(change, name, records, ttl);
    InChangeLength(change, name, records, ttl, 8);
    InChangeLength(change, name, records, ttl, 12);
    ChangeBlock(inside);
    ChangesBlock(inside);
    BatchBlock(inside);
  }

  lemma SetBlock(change: Change, name: string, records: Rrset, ttl: nat)
    ensures Blocks(Render(InChange(change, name, records, ttl)), "ResourceRecordSet") == [Render(Inside(name, records, ttl))]
  {
    InsideDocument(name, records, ttl);
    InsideHoldsNoSet(name, records, ttl);
    ActionDocument(Label(change));
    assert "/" + "ResourceRecordSet" == "/ResourceRecordSet" && |"ResourceRecordSet"| == 17;
    ScanWrapped([Gap(8)] + (Field("Action", Label(change)) + [Gap(8)]), "ResourceRecordSet", Inside(name, records, ttl), [Gap(6)]);
  }

  lemma {:induction false} ValuesHoldNoList(records: Rrset)
    ensures Tag("/ResourceRecords") !in Values(records)
  {
    if records != [] {
      ValuesHoldNoList(records[1..]);
      assert |"/ResourceRecords"| == 16;
    }
  }

  lemma InsideSplits(name: string, records: Rrset, ttl: nat)
    ensures Inside(name, records, ttl)
         == (([Gap(10)] + (Field("Name", XmlEscape(name)) + ([Gap(10)] + (Field("Type", "TLSA")
            + ([Gap(10)] + (Field("TTL", Decimal(ttl)) + [Gap(10)])))))))
          + ([Tag("ResourceRecords")] + (Values(records) + InsideEnd()))
  {
    var rest := [Tag("ResourceRecords")] + (Values(records) + InsideEnd());
    assert [Gap(10), Tag("ResourceRecords")] + (Values(records) + InsideEnd()) == [Gap(10)] + rest;
    Regroup([Gap(10)], Field("Name", XmlEscape(name)), [Gap(10)], Field("Type", "TLSA"), [Gap(10)],
      Field("TTL", Decimal(ttl)), [Gap(10)], rest);
  }

  lemma StartLacksList(name: string, ttl: nat)
    ensures Lacks([Gap(10)] + (Field("Name", XmlEscape(name)) + ([Gap(10)] + (Field("Type", "TLSA")
              + ([Gap(10)] + (Field("TTL", Decimal(ttl)) + [Gap(10)]))))), "ResourceRecords")
  {
    assert |"ResourceRecords"| == 15;
    FieldLacks("Name", XmlEscape(name), "ResourceRecords");
    FieldLacks("Type", "TLSA", "ResourceRecords");
    FieldLacks("TTL", Decimal(ttl), "ResourceRecords");
  }

  lemma RecordsBlock(name: string, records: Rrset, ttl: nat)
    ensures Blocks(Render(Inside(name, records, ttl)), "ResourceRecords") == [Render(Values(records))]
  {
    var start := [Gap(10)] + (Field("Name", XmlEscape(name)) + ([Gap(10)] + (Field("Type", "TLSA")
      + ([Gap(10)] + (Field("TTL", Decimal(ttl)) + [Gap(10)])))));
    InsideSplits(name, records, ttl);
    StartLacksList(name, ttl);
    ValuesHoldNoList(records);
    InsideDocument(name, records, ttl);
    DocumentConcat(start, [Tag("ResourceRecords")] + (Values(records) + InsideEnd()));
    ListEnd();
    assert InsideEnd() == [Tag("/" + "ResourceRecords")] + [Gap(8)];
    ValuesDocument(records);
    ScanWrapped(start, "ResourceRecords", Values(records), [Gap(8)]);
  }

  lemma ListEnd()
    ensures "/" + "ResourceRecords" == "/ResourceRecords" && IsName("ResourceRecords")
  {
  }

  lemma ChangeBlock(inside: seq<Token>)
    requires IsDocument(inside) && Tag("/" + "Change") !in inside && IsName("Change")
    ensures IsDocument(InChanges(inside)) && Blocks(Render(InChanges(inside)), "Change") == [Render(inside)]
  {
    WrappedDocument([Gap(6)], "Change", inside, [Gap(4)]);
    ScanWrapped([Gap(6)], "Change", inside, [Gap(4)]);
  }

  lemma ChangesBlock(inside: seq<Token>)
    requires IsDocument(InChanges(inside)) && NoLength(inside, 8) && NoLength(inside, 12) && IsName("Changes")
    ensures IsDocument(InBatch(InChanges(inside))) && NoLength(InBatch(InChanges(inside)), 12)
    ensures Blocks(Render(InBatch(InChanges(inside))), "Changes") == [Render(InChanges(inside))]
  {
    WrappedLength([Gap(6)], "Change", inside, [Gap(4)], 8);
    WrappedLength([Gap(6)], "Change", inside, [Gap(4)], 12);
    WrappedLength([Gap(4)], "Changes", InChanges(inside), [Gap(2)], 12);
    WrappedDocument([Gap(4)], "Changes", InChanges(inside), [Gap(2)]);
    assert Tag("/" + "Changes") !in InChanges(inside);
    ScanWrapped([Gap(4)], "Changes", InChanges(inside), [Gap(2)]);
  }

  lemma BatchStart()
    ensures IsDocument(Prolog() + [Gap(2)]) && Tag("ChangeBatch") !in Prolog() + [Gap(2)]
  {
    PrologLacks("ChangeBatch");
    PrologPassed();
    PassedDocument(Prolog());
    DocumentConcat(Prolog(), [Gap(2)]);
  }

  lemma LineFacts(width: nat, tag: string, other: string)
    requires IsName(tag) && tag != other
    ensures IsDocument(Line(width, tag)) && Tag(other) !in Line(width, tag)
  {
  }

  lemma EndNames()
    ensures IsName("/ChangeResourceRecordSetsRequest") && "/ChangeResourceRecordSetsRequest" != "ChangeBatch"
  {
    assert "/ChangeResourceRecordSetsRequest"[0] == '/' && "ChangeBatch"[0] == 'C';
  }

  lemma BatchEnd()
    ensures var last := Line(0, "/ChangeResourceRecordSetsRequest"); IsDocument(last) && Tag("ChangeBatch") !in last
  {
    EndNames();
    LineFacts(0, "/ChangeResourceRecordSetsRequest", "ChangeBatch");
  }

  lemma BatchBlock(inside: seq<Token>)
    requires IsDocument(InBatch(InChanges(inside))) && NoLength(InBatch(InChanges(inside)), 12) && IsName("ChangeBatch")
    ensures var last := Line(0, "/ChangeResourceRecordSetsRequest");
      Blocks(Render(Wrapped(Prolog() + [Gap(2)], "ChangeBatch", InBatch(InChanges(inside)), last)), "ChangeBatch")
        == [Render(InBatch(InChanges(inside)))]
  {
    BatchStart();
    BatchEnd();
    assert |"/" + "ChangeBatch"| == 12;
    ScanWrapped(Prolog() + [Gap(2)], "ChangeBatch", InBatch(InChanges(inside)), Line(0, "/ChangeResourceRecordSetsRequest"));
  }
}
