/**
 * The Route 53 client's XML: what it writes, and the text scanner that it reads with
 * (src/route53.rs). The scanner agrees with real tags on every document of tags and text.
 */
module Xml {
  import opened Text
  import opened Publish
  import opened Rdata

  // ---- the scanner ----

  predicate HasPrefix(s: string, prefix: string) {
    |prefix| <= |s| && s[..|prefix|] == prefix
  }

  /** `find`: the first place where the pattern starts. */
  function Find(s: string, pattern: string): (r: Option<nat>)
    ensures r.Some? ==> r.value + |pattern| <= |s|
  {
    if HasPrefix(s, pattern) then Some(0)
    else if s == "" then None
    else
      match Find(s[1..], pattern)
      case None => None
      case Some(n) => Some(n + 1)
  }

  /** The text before the first match and the text after it. */
  function Cut(s: string, pattern: string): (r: Option<(string, string)>)
    ensures r.Some? ==> |r.value.1| + |pattern| <= |s|
  {
    if HasPrefix(s, pattern) then Some(("", s[|pattern|..]))
    else if s == "" then None
    else
      match Cut(s[1..], pattern)
      case None => None
      case Some((before, after)) => Some(([s[0]] + before, after))
  }

  lemma {:induction false} CutIsFind(s: string, pattern: string)
    ensures Cut(s, pattern) ==
      match Find(s, pattern)
      case None => None
      case Some(n) => Some((s[..n], s[n + |pattern|..]))
  {
    if !HasPrefix(s, pattern) && s != "" {
      CutIsFind(s[1..], pattern);
      if Find(s[1..], pattern).Some? {
        var n := Find(s[1..], pattern).value;
        assert [s[0]] + s[1..][..n] == s[..n + 1] && s[1..][n + |pattern|..] == s[n + 1 + |pattern|..];
      }
    }
  }

  function OpenTag(tag: string): (r: string)
    ensures |r| == |tag| + 2
  {
    "<" + tag + ">"
  }

  function CloseTag(tag: string): (r: string)
    ensures |r| == |tag| + 3
  {
    OpenTag("/" + tag)
  }

  /** The text between each pair of marks, scanning on after the second one. */
  function Between(xml: string, open: string, close: string): seq<string>
    requires open != ""
    decreases |xml|
  {
    match Cut(xml, open)
    case None => []
    case Some((_, after)) =>
      match Cut(after, close)
      case None => []
      case Some((block, rest)) => [block] + Between(rest, open, close)
  }

  /** The text between each opening tag and the closing tag after it. */
  function Blocks(xml: string, tag: string): seq<string> {
    Between(xml, OpenTag(tag), CloseTag(tag))
  }

  /** `str::find` as the loops use it: a split of the text, without reading past the match. */
  method FindText(s: string, pattern: string) returns (found: bool, at: nat)
    ensures found ==> at + |pattern| <= |s| && Cut(s, pattern) == Some((s[..at], s[at + |pattern|..]))
    ensures !found ==> Cut(s, pattern) == None
  {
    CutIsFind(s, pattern);
    match Find(s, pattern)
    case None => found, at := false, 0;
    case Some(n) => found, at := true, n;
  }

  predicate Divided(done: seq<string>, todo: seq<string>, all: seq<string>) {
    done + todo == all
  }

  lemma Requeue(done: seq<string>, todo: seq<string>, all: seq<string>)
    requires Divided(done, todo, all)
    ensures todo == [] ==> done == all
    ensures todo != [] ==> Divided(done + [todo[0]], todo[1..], all)
  {
    if todo != [] {
      assert done + ([todo[0]] + todo[1..]) == (done + [todo[0]]) + todo[1..];
    }
  }

  /** The loop of `xml_blocks` once it has its marks. */
  method CollectBetween(xml: string, open: string, close: string) returns (blocks: seq<string>)
    requires open != ""
    ensures blocks == Between(xml, open, close)
  {
    blocks := [];
    var rest := xml;
    ghost var all, todo := Between(xml, open, close), Between(xml, open, close);
    while true
      invariant todo == Between(rest, open, close) && Divided(blocks, todo, all)
      decreases |rest|
    {
      Requeue(blocks, todo, all);
      var found, start := FindText(rest, open);
      if !found {
        return;
      }
      var after := rest[start + |open|..];
      var closed, end := FindText(after, close);
      if !closed {
        return;
      }
      blocks := blocks + [after[..end]];
      rest := after[end + |close|..];
      todo := todo[1..];
    }
  }

  method XmlBlocks(xml: string, tag: string) returns (blocks: seq<string>)
    ensures blocks == Blocks(xml, tag)
  {
    blocks := CollectBetween(xml, OpenTag(tag), CloseTag(tag));
  }

  function TrimAll(texts: seq<string>): seq<string> {
    if texts == [] then [] else [Trim(texts[0])] + TrimAll(texts[1..])
  }

  /** `xml_texts` */
  function Texts(xml: string, tag: string): seq<string> {
    TrimAll(Blocks(xml, tag))
  }

  function First(texts: seq<string>): Option<string> {
    if texts == [] then None else Some(texts[0])
  }

  datatype ParsedRrset = ParsedRrset(name: string, recordType: string, values: seq<string>)

  function RrsetIn(block: string): seq<ParsedRrset> {
    match (First(Texts(block, "Name")), First(Texts(block, "Type")))
    case (Some(name), Some(recordType)) => [ParsedRrset(name, recordType, Texts(block, "Value"))]
    case _ => []
  }

  function RrsetsIn(blocks: seq<string>): seq<ParsedRrset> {
    if blocks == [] then [] else RrsetIn(blocks[0]) + RrsetsIn(blocks[1..])
  }

  function ParseRrsets(xml: string): seq<ParsedRrset> {
    RrsetsIn(Blocks(xml, "ResourceRecordSet"))
  }

  /** The values that are TLSA data. */
  function Listed(values: seq<string>): Rrset {
    if values == [] then []
    else
      (match ParseTlsaRdata(values[0]) case Some(r) => [r] case None => []) + Listed(values[1..])
  }

  // ---- documents of tags and text ----

  datatype Token = Tag(name: string) | Chars(text: string)

  function RenderToken(t: Token): string {
    match t
    case Tag(name) => OpenTag(name)
    case Chars(text) => text
  }

  function Render(tokens: seq<Token>): string {
    if tokens == [] then "" else RenderToken(tokens[0]) + Render(tokens[1..])
  }

  predicate IsName(name: string) {
    '<' !in name && '>' !in name
  }

  predicate IsToken(t: Token) {
    match t
    case Tag(name) => IsName(name)
    case Chars(text) => '<' !in text
  }

  predicate IsDocument(tokens: seq<Token>) {
    forall t | t in tokens :: IsToken(t)
  }

  /** The tokens before the first such tag and those after it. */
  function Split(tokens: seq<Token>, name: string): (r: Option<(seq<Token>, seq<Token>)>)
    ensures r.Some? && IsDocument(tokens) ==> IsDocument(r.value.1)
    ensures r.Some? ==> |r.value.1| < |tokens|
  {
    if tokens == [] then None
    else if tokens[0] == Tag(name) then Some(([], tokens[1..]))
    else
      match Split(tokens[1..], name)
      case None => None
      case Some((before, after)) => Some(([tokens[0]] + before, after))
  }

  /** What the tags enclose, block by block. */
  function Enclosed(tokens: seq<Token>, tag: string): seq<seq<Token>>
    decreases |tokens|
  {
    match Split(tokens, tag)
    case None => []
    case Some((_, after)) =>
      match Split(after, "/" + tag)
      case None => []
      case Some((block, rest)) => [block] + Enclosed(rest, tag)
  }

  function RenderAll(blocks: seq<seq<Token>>): seq<string> {
    if blocks == [] then [] else [Render(blocks[0])] + RenderAll(blocks[1..])
  }

  /** What a search finds when more text comes first. */
  function Later(t: string, found: Option<(string, string)>): Option<(string, string)> {
    match found
    case None => None
    case Some((before, after)) => Some((t + before, after))
  }

  lemma {:induction false} CutSkips(t: string, s: string, pattern: string)
    requires pattern != "" && pattern[0] == '<' && '<' !in t
    ensures Cut(t + s, pattern) == Later(t, Cut(s, pattern))
  {
    if t == "" {
      assert t + s == s;
      if Cut(s, pattern).Some? {
        assert "" + Cut(s, pattern).value.0 == Cut(s, pattern).value.0;
      }
    } else {
      assert (t + s)[1..] == t[1..] + s && (t + s)[0] == t[0];
      CutSkips(t[1..], s, pattern);
      if Cut(s, pattern).Some? {
        assert [t[0]] + (t[1..] + Cut(s, pattern).value.0) == t + Cut(s, pattern).value.0;
      }
    }
  }

  lemma Differ(s: string, prefix: string, i: nat)
    requires i < |s| && i < |prefix| && s[i] != prefix[i]
    ensures !HasPrefix(s, prefix)
  {
    if |prefix| <= |s| {
      assert s[..|prefix|][i] != prefix[i];
    }
  }

  /** Another tag does not start with this one. */
  lemma OtherTag(name: string, other: string, s: string)
    requires IsName(name) && IsName(other) && name != other
    ensures !HasPrefix(OpenTag(other) + s, OpenTag(name))
  {
    var a, b := OpenTag(name), OpenTag(other) + s;
    if |name| < |other| {
      assert b[|name| + 1] == other[|name|] && a[|name| + 1] == '>';
      Differ(b, a, |name| + 1);
    } else if |name| > |other| {
      assert b[|other| + 1] == '>' && a[|other| + 1] == name[|other|];
      Differ(b, a, |other| + 1);
    } else {
      var k :| 0 <= k < |name| && name[k] != other[k];
      Differ(b, a, k + 1);
    }
  }

  /** `<` does not start a match, so the search goes on with the rest. */
  lemma CutPassesTag(body: string, tail: string, pattern: string)
    requires pattern != "" && pattern[0] == '<' && '<' !in body && !HasPrefix("<" + (body + tail), pattern)
    ensures Cut("<" + (body + tail), pattern) == Later("<" + body, Cut(tail, pattern))
  {
    var s := "<" + (body + tail);
    assert s[1..] == body + tail;
    CutSkips(body, tail, pattern);
    if Cut(tail, pattern).Some? {
      Associative("<", body, Cut(tail, pattern).value.0);
    }
  }

  /** A tag of another name, or text, is passed over. */
  lemma CutPasses(head: Token, tail: string, name: string)
    requires IsToken(head) && IsName(name) && head != Tag(name)
    ensures Cut(RenderToken(head) + tail, OpenTag(name)) == Later(RenderToken(head), Cut(tail, OpenTag(name)))
  {
    match head
    case Chars(text) => CutSkips(text, tail, OpenTag(name));
    case Tag(other) =>
      OtherTag(name, other, tail);
      var body := other + ">";
      assert OpenTag(other) + tail == "<" + (body + tail) && OpenTag(other) == "<" + body;
      CutPassesTag(body, tail, OpenTag(name));
  }

  lemma CutHere(open: string, tail: string)
    ensures Cut(open + tail, open) == Some(("", tail))
  {
    assert (open + tail)[..|open|] == open && (open + tail)[|open|..] == tail;
  }

  lemma RenderCons(head: Token, tokens: seq<Token>)
    ensures Render([head] + tokens) == RenderToken(head) + Render(tokens)
  {
    assert ([head] + tokens)[1..] == tokens;
  }

  lemma {:induction false} RenderConcat(a: seq<Token>, b: seq<Token>)
    ensures Render(a + b) == Render(a) + Render(b)
  {
    if a == [] {
      assert a + b == b;
    } else {
      RenderConcat(a[1..], b);
      assert (a + b)[1..] == a[1..] + b;
      Associative(RenderToken(a[0]), Render(a[1..]), Render(b));
    }
  }

  /** Searching the text for a tag finds the first tag of that name. */
  lemma {:induction false} CutTag(tokens: seq<Token>, name: string)
    requires IsDocument(tokens) && IsName(name)
    ensures Cut(Render(tokens), OpenTag(name)) ==
      match Split(tokens, name)
      case None => None
      case Some((before, after)) => Some((Render(before), Render(after)))
  {
    if tokens == [] {
    } else if tokens[0] == Tag(name) {
      CutHere(OpenTag(name), Render(tokens[1..]));
    } else {
      CutTag(tokens[1..], name);
      CutPasses(tokens[0], Render(tokens[1..]), name);
      if Split(tokens[1..], name).Some? {
        RenderCons(tokens[0], Split(tokens[1..], name).value.0);
      }
    }
  }

  /** The scanner sees exactly the blocks that the tags enclose. */
  lemma {:induction false} ScanAgrees(tokens: seq<Token>, tag: string)
    requires IsDocument(tokens) && IsName(tag)
    ensures Blocks(Render(tokens), tag) == RenderAll(Enclosed(tokens, tag))
    decreases |tokens|
  {
    CutTag(tokens, tag);
    match Split(tokens, tag)
    case None =>
    case Some((before, after)) =>
      CutTag(after, "/" + tag);
      match Split(after, "/" + tag)
      case None =>
      case Some((block, rest)) =>
        ScanAgrees(rest, tag);
        assert ([block] + Enclosed(rest, tag))[1..] == Enclosed(rest, tag);
  }
}
