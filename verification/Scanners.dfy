/**
 The hand-written scanners over domain markup, on plain text as the program runs them, and what each
 of them computes on printed tokens.
 */
module Scanners {
  import opened Results
  import opened Sequences
  import opened Text
  import opened Markup

  // ---------------------------------------------------------------- the scanners on text

  /** All stretches from a start marker to the next end marker, left to right without overlap. */
  function BlocksBetween(xml: string, start: string, end: string): seq<string>
    requires end != ""
    decreases |xml|
  {
    match Find(xml, start)
    case None => []
    case Some(offset) =>
      FindIsFirst(xml, start);
      var rest := xml[offset..];
      match Find(rest, end)
      case None => []
      case Some(close) =>
        FindIsFirst(rest, end);
        var length := close + |end|;
        [rest[..length]] + BlocksBetween(rest[length..], start, end)
  }

  function StartMarker(tag: string): string {
    "<" + tag
  }

  function EndMarker(tag: string): string {
    "</" + tag + ">"
  }

  function XmlBlocks(xml: string, tag: string): seq<string> {
    BlocksBetween(xml, StartMarker(tag), EndMarker(tag))
  }

  method ScanXmlBlocks(xml: string, tag: string) returns (blocks: seq<string>)
    ensures blocks == XmlBlocks(xml, tag)
  {
    blocks := ScanBetween(xml, StartMarker(tag), EndMarker(tag));
  }

  method ScanBetween(xml: string, start: string, end: string) returns (blocks: seq<string>)
    requires end != ""
    ensures blocks == BlocksBetween(xml, start, end)
  {
    var rest := xml;
    blocks := [];
    var offset := Find(rest, start);
    while offset.Some?
      invariant offset == Find(rest, start)
      invariant BlocksBetween(xml, start, end) == blocks + BlocksBetween(rest, start, end)
      decreases |rest|, if offset.Some? then 1 else 0
    {
      FindIsFirst(rest, start);
      BlockStep(rest, start, end);
      rest := rest[offset.value..];
      var close := Find(rest, end);
      if close.None? {
        return;
      }
      var length := close.value + |end|;
      ghost var done := blocks;
      blocks := blocks + [rest[..length]];
      assert done + ([rest[..length]] + BlocksBetween(rest[length..], start, end))
          == blocks + BlocksBetween(rest[length..], start, end);
      rest := rest[length..];
      offset := Find(rest, start);
    }
  }

  /** One turn of the block scanner, from the text at the start marker on. */
  lemma BlockStep(xml: string, start: string, end: string)
    requires end != "" && Find(xml, start).Some?
    ensures Find(xml, start).value <= |xml|
    ensures BlockFrom(xml[Find(xml, start).value..], BlocksBetween(xml, start, end), start, end)
  {
    FindIsFirst(xml, start);
    FindIsFirst(xml[Find(xml, start).value..], end);
  }

  /** The blocks of a text, given what remains of it from the first start marker on. */
  ghost predicate BlockFrom(rest: string, blocks: seq<string>, start: string, end: string)
    requires end != ""
  {
    match Find(rest, end)
    case None => blocks == []
    case Some(close) =>
      var length := close + |end|;
      length <= |rest| && blocks == [rest[..length]] + BlocksBetween(rest[length..], start, end)
  }

  function TagText(xml: string, tag: string): Option<string> {
    match Find(xml, StartMarker(tag))
    case None => None
    case Some(offset) =>
      FindIsFirst(xml, StartMarker(tag));
      var after := xml[offset..];
      match Find(after, ">")
      case None => None
      case Some(open) =>
        FindIsFirst(after, ">");
        match Find(after[open + 1..], EndMarker(tag))
        case None => None
        case Some(close) =>
          FindIsFirst(after[open + 1..], EndMarker(tag));
          Some(Trim(after[open + 1..][..close]))
  }

  function XmlAttribute(xml: string, element: string, attribute: string): Option<string> {
    match Find(xml, "<" + element + " ")
    case None => None
    case Some(start) =>
      FindIsFirst(xml, "<" + element + " ");
      match Find(xml[start..], ">")
      case None => None
      case Some(end) =>
        FindIsFirst(xml[start..], ">");
        TagAttribute(xml[start..][..end + 1], attribute)
  }

  /** Single quotes are tried first; a marker without a closing quote ends the search. */
  function TagAttribute(tag: string, attribute: string): Option<string> {
    match Find(tag, attribute + "='")
    case Some(at) =>
      FindIsFirst(tag, attribute + "='");
      Quoted(tag[at + |attribute| + 2..], "'")
    case None =>
      match Find(tag, attribute + "=\"")
      case Some(at) =>
        FindIsFirst(tag, attribute + "=\"");
        Quoted(tag[at + |attribute| + 2..], "\"")
      case None => None
  }

  function Quoted(s: string, quote: string): Option<string> {
    match Find(s, quote)
    case None => None
    case Some(end) =>
      FindIsFirst(s, quote);
      Some(s[..end])
  }

  /** What a tag adds to the names collected at depth zero: its own name, unless it closes or declares. */
  function Named(token: string, depth: nat): seq<string> {
    if StartsWith(token, "/") || StartsWith(token, "?") || StartsWith(token, "!") || depth != 0 then []
    else [TrimEndSlashes(FirstWord(token))]
  }

  function Nested(token: string, depth: nat): nat {
    if StartsWith(token, "/") then (if depth == 0 then 0 else depth - 1)
    else if StartsWith(token, "?") || StartsWith(token, "!") || EndsWith(token, "/") then depth
    else depth + 1
  }

  /** The names met at nesting depth zero in a text, in order. */
  function ChildKinds(text: string, depth: nat): seq<string>
    decreases |text|
  {
    match Find(text, "<")
    case None => []
    case Some(start) =>
      FindIsFirst(text, "<");
      var rest := text[start + 1..];
      match Find(rest, ">")
      case None => []
      case Some(end) =>
        FindIsFirst(rest, ">");
        Named(rest[..end], depth) + ChildKinds(rest[end + 1..], Nested(rest[..end], depth))
  }

  function DirectChildKinds(xml: string): seq<string> {
    match Find(xml, ">")
    case None => []
    case Some(open) =>
      FindIsFirst(xml, ">");
      Sorted(ChildKinds(xml[open + 1..], 0))
  }

  /** One turn of the depth scanner's loop: what is collected so far grows by the next tag's share. */
  lemma KindsStep(all: seq<string>, kinds: seq<string>, rest: string, depth: nat)
    requires all == kinds + ChildKinds(rest, depth)
    ensures Find(rest, "<").None? ==> all == kinds
    ensures Find(rest, "<").Some? ==>
              && Find(rest, "<").value < |rest|
              && var tail := rest[Find(rest, "<").value + 1..];
              && (Find(tail, ">").None? ==> all == kinds)
              && (Find(tail, ">").Some? ==>
                    && Find(tail, ">").value < |tail|
                    && var token, next := tail[..Find(tail, ">").value], tail[Find(tail, ">").value + 1..];
                    all == (kinds + Named(token, depth)) + ChildKinds(next, Nested(token, depth)))
  {
    hide Find, Named, Nested;
    FindIsFirst(rest, "<");
    if Find(rest, "<").Some? {
      var tail := rest[Find(rest, "<").value + 1..];
      FindIsFirst(tail, ">");
      if Find(tail, ">").Some? {
        var token, next := tail[..Find(tail, ">").value], tail[Find(tail, ">").value + 1..];
        Associates(kinds, Named(token, depth), ChildKinds(next, Nested(token, depth)));
      }
    }
  }

  method ScanDirectChildKinds(xml: string) returns (result: seq<string>)
    ensures result == DirectChildKinds(xml)
  {
    var open := Find(xml, ">");
    if open.None? {
      return [];
    }
    FindIsFirst(xml, ">");
    var kinds := ScanChildKinds(xml[open.value + 1..]);
    result := Sorted(kinds);
  }

  method ScanChildKinds(text: string) returns (kinds: seq<string>)
    ensures kinds == ChildKinds(text, 0)
  {
    var rest := text;
    var depth: nat := 0;
    kinds := [];
    var start := Find(rest, "<");
    while start.Some?
      invariant start == Find(rest, "<")
      invariant ChildKinds(text, 0) == kinds + ChildKinds(rest, depth)
      decreases |rest|, if start.Some? then 1 else 0
    {
      KindsStep(ChildKinds(text, 0), kinds, rest, depth);
      rest := rest[start.value + 1..];
      var end := Find(rest, ">");
      if end.None? {
        return;
      }
      var token := rest[..end.value];
      ghost var before, above := kinds, depth;
      if StartsWith(token, "/") {
        depth := if depth == 0 then 0 else depth - 1;
      } else if !StartsWith(token, "?") && !StartsWith(token, "!") {
        if depth == 0 {
          kinds := kinds + [TrimEndSlashes(FirstWord(token))];
        }
        if !EndsWith(token, "/") {
          depth := depth + 1;
        }
      }
      assert depth == Nested(token, above);
      assert kinds == before + Named(token, above);
      rest := rest[end.value + 1..];
      start := Find(rest, "<");
    }
    KindsStep(ChildKinds(text, 0), kinds, rest, depth);
  }

  /** The pieces of a text between the non-overlapping occurrences of a separator. */
  function Split(s: string, separator: string): seq<string>
    requires separator != ""
    decreases |s|
  {
    match Find(s, separator)
    case None => [s]
    case Some(at) =>
      FindIsFirst(s, separator);
      [s[..at]] + Split(s[at + |separator|..], separator)
  }

  predicate DescribesDisk(section: string) {
    Contains(section, "device='disk'") || Contains(section, "device=\"disk\"")
  }

  function FirstDiskSection(sections: seq<string>): Option<string> {
    if sections == [] then None
    else if DescribesDisk(sections[0]) then Some(sections[0])
    else FirstDiskSection(sections[1..])
  }

  function DomainDiskPath(xml: string): Option<string> {
    match FirstDiskSection(Split(xml, "<disk "))
    case None => None
    case Some(disk) => XmlAttribute(disk, "source", "file")
  }

  // ---------------------------------------------------------------- blocks of tokens

  /** The token form of the block scanner, for the two patterns after `<`. */
  function TokenBlocks(ts: seq<Token>, start: string, end: string): seq<seq<Token>>
    decreases |ts|
  {
    TakeAndDrop(ts, start);
    var from := DropTo(ts, start);
    TakeAndDrop(from, end);
    var rest := DropTo(from, end);
    if from == [] || rest == [] then []
    else [TakeTo(from, end) + [rest[0]]] + TokenBlocks(rest[1..], start, end)
  }

  function ClosePattern(tag: string): string {
    "/" + tag + ">"
  }

  function Blocks(ts: seq<Token>, tag: string): seq<seq<Token>> {
    TokenBlocks(ts, tag, ClosePattern(tag))
  }

  function PrintAll(blocks: seq<seq<Token>>): seq<string> {
    if blocks == [] then [] else [Print(blocks[0])] + PrintAll(blocks[1..])
  }

  lemma ClosingPattern(tag: string)
    requires PlainName(tag)
    ensures TagPattern(tag) && TagPattern(ClosePattern(tag))
    ensures "<" + ClosePattern(tag) == EndMarker(tag) == Show(Close(tag))
    ensures StartsTag(Close(tag), ClosePattern(tag))
    ensures forall t :: Plain(t) && StartsTag(t, ClosePattern(tag)) ==> t == Close(tag)
  {
    var end := ClosePattern(tag);
    assert Inside(Close(tag)) + ">" == end;
    assert end[..|end|] == end;
    forall t | Plain(t) && StartsTag(t, end) ensures t == Close(tag) {
      var inner := Inside(t) + ">";
      assert inner[0] == end[0] == '/';
      if t.Close? {
        InsideIsPlain(t);
        assert inner[|tag| + 1] == '>' by { assert inner[..|end|][|tag| + 1] == end[|tag| + 1]; }
        assert |Inside(t)| == |tag| + 1;
        assert t.name == Inside(t)[1..] == end[1..|tag| + 1] == tag by {
          assert inner[..|end|] == end;
          assert inner[1..|tag| + 1] == Inside(t)[1..];
        }
      }
    }
  }
}
