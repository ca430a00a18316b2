/** A listing of any number of record sets, read by the client's scanner (src/route53.rs:472-519). */
module Listing {
  import opened Text
  import opened Publish
  import opened Rdata
  import opened Xml
  import opened Escaping
  import opened ChangeDocument

  datatype RecordSet = RecordSet(name: string, records: Rrset, ttl: nat)

  function SetInside(listed: RecordSet): seq<Token> {
    Inside(listed.name, listed.records, listed.ttl)
  }

  /** The sets one after the other, with anything that opens no set between them. */
  function Sets(sets: seq<RecordSet>, gaps: seq<seq<Token>>): seq<Token>
    requires |gaps| == |sets|
  {
    if sets == [] then []
    else Wrapped(gaps[0], "ResourceRecordSet", SetInside(sets[0]), Sets(sets[1..], gaps[1..]))
  }

  function Insides(sets: seq<RecordSet>): seq<string> {
    if sets == [] then [] else [Render(SetInside(sets[0]))] + Insides(sets[1..])
  }

  predicate IsGap(tokens: seq<Token>) {
    IsDocument(tokens) && Tag("ResourceRecordSet") !in tokens
  }

  lemma WrappedMore(head: seq<Token>, tag: string, inside: seq<Token>, tail: seq<Token>)
    requires Tag(tag) !in head && Tag("/" + tag) !in inside
    ensures Enclosed(Wrapped(head, tag, inside, tail), tag) == [inside] + Enclosed(tail, tag)
  {
    SplitAt(head, inside + ([Tag("/" + tag)] + tail), tag);
    SplitAt(inside, tail, "/" + tag);
  }

  lemma WrappedRest(head: seq<Token>, tag: string, inside: seq<Token>, tail: seq<Token>, rest: seq<Token>)
    ensures Wrapped(head, tag, inside, tail) + rest == Wrapped(head, tag, inside, tail + rest)
  {
    Associative([Tag("/" + tag)], tail, rest);
    Associative(inside, [Tag("/" + tag)] + tail, rest);
    Associative([Tag(tag)], inside + ([Tag("/" + tag)] + tail), rest);
    Associative(head, [Tag(tag)] + (inside + ([Tag("/" + tag)] + tail)), rest);
  }

  lemma SetName()
    ensures IsName("ResourceRecordSet") && "/" + "ResourceRecordSet" == "/ResourceRecordSet"
  {
  }

  lemma {:induction false} SetsDocument(sets: seq<RecordSet>, gaps: seq<seq<Token>>)
    requires |gaps| == |sets| && forall i | 0 <= i < |gaps| :: IsGap(gaps[i])
    ensures IsDocument(Sets(sets, gaps))
  {
    if sets != [] {
      SetsDocument(sets[1..], gaps[1..]);
      SetName();
      InsideDocument(sets[0].name, sets[0].records, sets[0].ttl);
      WrappedDocument(gaps[0], "ResourceRecordSet", SetInside(sets[0]), Sets(sets[1..], gaps[1..]));
    }
  }

  lemma {:induction false} SetsEnclosed(sets: seq<RecordSet>, gaps: seq<seq<Token>>, tail: seq<Token>)
    requires |gaps| == |sets| && (forall i | 0 <= i < |gaps| :: IsGap(gaps[i])) && IsGap(tail)
    ensures RenderAll(Enclosed(Sets(sets, gaps) + tail, "ResourceRecordSet")) == Insides(sets)
  {
    if sets == [] {
      assert Sets(sets, gaps) + tail == tail + [];
      EnclosedPast(tail, [], "ResourceRecordSet");
    } else {
      var inside, later := SetInside(sets[0]), Sets(sets[1..], gaps[1..]);
      SetsEnclosed(sets[1..], gaps[1..], tail);
      SetName();
      InsideHoldsNoSet(sets[0].name, sets[0].records, sets[0].ttl);
      WrappedRest(gaps[0], "ResourceRecordSet", inside, later, tail);
      WrappedMore(gaps[0], "ResourceRecordSet", inside, later + tail);
      assert ([inside] + Enclosed(later + tail, "ResourceRecordSet"))[1..] == Enclosed(later + tail, "ResourceRecordSet");
    }
  }

  lemma RrsetsCons(a: seq<string>, b: seq<string>)
    requires a != []
    ensures RrsetsIn(a + b) == RrsetIn(a[0]) + RrsetsIn(a[1..] + b)
  {
    assert (a + b)[1..] == a[1..] + b;
  }

  lemma {:induction false} RrsetsConcat(a: seq<string>, b: seq<string>)
    ensures RrsetsIn(a + b) == RrsetsIn(a) + RrsetsIn(b)
  {
    if a == [] {
      assert a + b == b;
    } else {
      RrsetsConcat(a[1..], b);
      RrsetsCons(a, b);
      Associative(RrsetIn(a[0]), RrsetsIn(a[1..]), RrsetsIn(b));
    }
  }

  predicate AreRead(sets: seq<RecordSet>, parsed: seq<ParsedRrset>) {
    && |parsed| == |sets|
    && forall i | 0 <= i < |sets| :: IsRead(sets[i], parsed[i])
  }

  predicate IsRead(listed: RecordSet, parsed: ParsedRrset) {
    && parsed.recordType == "TLSA" && Listed(parsed.values) == listed.records
    && (parsed.name == listed.name <==> IsKept(listed.name))
  }

  lemma OneRead(listed: RecordSet)
    requires AreKept(listed.records)
    ensures AreRead([listed], RrsetIn(Render(SetInside(listed))))
  {
    RrsetInside(listed.name, listed.records, listed.ttl);
    ListedFormatted(listed.records);
    NameSurvives(listed.name);
  }

  lemma ReadConcat(a: seq<RecordSet>, b: seq<RecordSet>, p: seq<ParsedRrset>, q: seq<ParsedRrset>)
    requires AreRead(a, p) && AreRead(b, q)
    ensures AreRead(a + b, p + q)
  {
    forall i | 0 <= i < |a + b| ensures IsRead((a + b)[i], (p + q)[i]) {
      if i < |a| {
        assert (a + b)[i] == a[i] && (p + q)[i] == p[i];
      } else {
        assert (a + b)[i] == b[i - |a|] && (p + q)[i] == q[i - |a|];
      }
    }
  }

  lemma {:induction false} InsidesRead(sets: seq<RecordSet>)
    requires forall i | 0 <= i < |sets| :: AreKept(sets[i].records)
    ensures AreRead(sets, RrsetsIn(Insides(sets)))
  {
    if sets != [] {
      InsidesRead(sets[1..]);
      OneRead(sets[0]);
      ReadConcat([sets[0]], sets[1..], RrsetIn(Insides(sets)[0]), RrsetsIn(Insides(sets[1..])));
      assert sets == [sets[0]] + sets[1..] && Insides(sets)[1..] == Insides(sets[1..]);
    }
  }

  /**
   * Every set of a listing is read, in the order of the listing and with its own records: nothing
   * of one set shows up in another, whatever stands between them.
   */
  lemma ListingReadsBack(sets: seq<RecordSet>, gaps: seq<seq<Token>>, tail: seq<Token>)
    requires |gaps| == |sets| && (forall i | 0 <= i < |gaps| :: IsGap(gaps[i])) && IsGap(tail)
    requires forall i | 0 <= i < |sets| :: AreKept(sets[i].records)
    ensures var parsed := ParseRrsets(Render(Sets(sets, gaps) + tail));
      && |parsed| == |sets|
      && forall i | 0 <= i < |sets| ::
        && parsed[i].recordType == "TLSA" && Listed(parsed[i].values) == sets[i].records
        && (parsed[i].name == sets[i].name <==> IsKept(sets[i].name))
  {
    SetsDocument(sets, gaps);
    DocumentConcat(Sets(sets, gaps), tail);
    SetName();
    ScanAgrees(Sets(sets, gaps) + tail, "ResourceRecordSet");
    SetsEnclosed(sets, gaps, tail);
    InsidesRead(sets);
  }

  lemma {:induction false} EnclosedConcat(a: seq<Token>, b: seq<Token>, tag: string)
    requires IsClosed(a, tag)
    ensures Enclosed(a + b, tag) == Enclosed(a, tag) + Enclosed(b, tag)
    decreases |a|
  {
    if Split(a, tag) == None {
      SplitNone(a, tag);
      EnclosedPast(a, b, tag);
    } else {
      var (before, after) := Split(a, tag).value;
      var (block, rest) := Split(after, "/" + tag).value;
      SplitParts(a, tag);
      SplitParts(after, "/" + tag);
      WrappedRest(before, tag, block, rest, b);
      WrappedMore(before, tag, block, rest + b);
      EnclosedConcat(rest, b, tag);
      Associative([block], Enclosed(rest, tag), Enclosed(b, tag));
    }
  }

  /** Every tag that is opened is closed. */
  predicate IsClosed(tokens: seq<Token>, tag: string)
    decreases |tokens|
  {
    match Split(tokens, tag)
    case None => true
    case Some((_, after)) =>
      match Split(after, "/" + tag)
      case None => false
      case Some((_, rest)) => IsClosed(rest, tag)
  }

  lemma {:induction false} SplitNone(tokens: seq<Token>, tag: string)
    requires Split(tokens, tag) == None
    ensures Tag(tag) !in tokens
  {
    if tokens != [] {
      SplitNone(tokens[1..], tag);
    }
  }

  lemma {:induction false} SplitParts(tokens: seq<Token>, tag: string)
    requires Split(tokens, tag).Some?
    ensures var (before, after) := Split(tokens, tag).value;
      Tag(tag) !in before && tokens == before + ([Tag(tag)] + after)
  {
    if tokens[0] == Tag(tag) {
      assert tokens == [tokens[0]] + tokens[1..];
    } else {
      SplitParts(tokens[1..], tag);
      assert tokens == [tokens[0]] + tokens[1..];
    }
  }

  lemma {:induction false} RenderAllConcat(a: seq<seq<Token>>, b: seq<seq<Token>>)
    ensures RenderAll(a + b) == RenderAll(a) + RenderAll(b)
  {
    if a == [] {
      assert a + b == b;
    } else {
      RenderAllConcat(a[1..], b);
      assert (a + b)[1..] == a[1..] + b;
    }
  }

  /** Two documents one after the other list what the one lists and then what the other does. */
  lemma DocumentsConcat(a: seq<Token>, b: seq<Token>)
    requires IsDocument(a) && IsDocument(b) && IsClosed(a, "ResourceRecordSet")
    ensures ParseRrsets(Render(a) + Render(b)) == ParseRrsets(Render(a)) + ParseRrsets(Render(b))
  {
    SetName();
    DocumentConcat(a, b);
    RenderConcat(a, b);
    ScanAgrees(a, "ResourceRecordSet");
    ScanAgrees(b, "ResourceRecordSet");
    ScanAgrees(a + b, "ResourceRecordSet");
    EnclosedConcat(a, b, "ResourceRecordSet");
    RenderAllConcat(Enclosed(a, "ResourceRecordSet"), Enclosed(b, "ResourceRecordSet"));
    RrsetsConcat(RenderAll(Enclosed(a, "ResourceRecordSet")), RenderAll(Enclosed(b, "ResourceRecordSet")));
  }

  /** A block without a name or a type is passed over, and no other is. */
  lemma IncompletePassed(block: string)
    ensures |RrsetIn(block)| == if Blocks(block, "Name") == [] || Blocks(block, "Type") == [] then 0 else 1
  {
  }
}
