/** The shape of printed domain documents, part by part: which tags occur in them, and how elements nest. */
module DocumentShape {
  import opened Results
  import opened Text
  import opened Markup
  import opened Scanners
  import opened ScannerTheorems
  import opened DomainXml

  // ---------------------------------------------------------------- tags among text

  /** The tags of a token list, without the text between them. */
  function Tags(ts: seq<Token>): seq<Token> {
    if ts == [] then [] else (if ts[0].Chars? then [] else [ts[0]]) + Tags(ts[1..])
  }

  lemma NoTags()
    ensures Tags([]) == []
  {
  }

  lemma TagsOfOne(t: Token)
    ensures Tags([t]) == if t.Chars? then [] else [t]
  {
    assert [t][1..] == [];
  }

  lemma TagsCons(head: Token, tail: seq<Token>)
    ensures Tags([head] + tail) == (if head.Chars? then [] else [head]) + Tags(tail)
    ensures head.Chars? ==> Tags([head] + tail) == Tags(tail)
    ensures !head.Chars? ==> Tags([head] + tail)[0] == head && Tags([head] + tail)[1..] == Tags(tail)
  {
    assert ([head] + tail)[1..] == tail;
  }

  lemma {:induction false} TagsAppend(a: seq<Token>, b: seq<Token>)
    ensures Tags(a + b) == Tags(a) + Tags(b)
  {
    hide Tags;
    NoTags();
    if a == [] {
      assert a + b == b;
    } else {
      var head, tail := a[0], a[1..];
      assert a + b == [head] + (tail + b) && a == [head] + tail;
      TagsAppend(tail, b);
      TagsCons(head, tail + b);
      TagsCons(head, tail);
    }
  }

  lemma TagsAppend3(a: seq<Token>, b: seq<Token>, c: seq<Token>)
    ensures Tags(a + b + c) == Tags(a) + Tags(b) + Tags(c)
  {
    hide Tags;
    TagsAppend(a, b);
    TagsAppend(a + b, c);
  }

  lemma TagOfLine(depth: nat, t: Token)
    requires !t.Chars?
    ensures Tags(Line(depth, [t])) == [t]
  {
    hide Tags;
    TagsOfOne(t);
    TagsOfOne(Chars(Indentation(depth)));
    TagsOfOne(Chars("\n"));
    TagsAppend3([Chars(Indentation(depth))], [t], [Chars("\n")]);
  }

  lemma TagsOfTextLine(depth: nat, name: string, attributes: seq<Attribute>, text: string)
    ensures Tags(Line(depth, TextElement(name, attributes, text))) == [Open(name, attributes), Close(name)]
  {
    hide Tags;
    var open, close := Open(name, attributes), Close(name);
    TagsOfOne(open);
    TagsOfOne(Chars(text));
    TagsOfOne(close);
    TagsAppend3([open], [Chars(text)], [close]);
    assert TextElement(name, attributes, text) == [open] + [Chars(text)] + [close];
    TagsOfOne(Chars(Indentation(depth)));
    TagsOfOne(Chars("\n"));
    TagsAppend3([Chars(Indentation(depth))], TextElement(name, attributes, text), [Chars("\n")]);
  }

  /** Names told apart by their first two characters. */
  predicate Distinct(name: string, q: string) {
    |name| >= 2 && |q| >= 2 && (name[0] != q[0] || name[1] != q[1])
  }

  lemma DistinctIsNoPrefix(name: string, q: string)
    requires Distinct(name, q)
    ensures !StartsWith(name, q)
  {
    if |q| <= |name| {
      assert name[..|q|][0] == name[0] && name[..|q|][1] == name[1];
    }
  }

  /** Every element opened here has a name distinct from this one. */
  predicate AvoidsName(ts: seq<Token>, q: string) {
    forall i :: 0 <= i < |ts| && (ts[i].Open? || ts[i].Empty?) ==> Distinct(ts[i].name, q)
  }

  lemma {:induction false} TagsAreTokens(ts: seq<Token>)
    ensures forall t :: t in Tags(ts) <==> t in ts && !t.Chars?
  {
    if ts != [] {
      TagsAreTokens(ts[1..]);
      assert ts == [ts[0]] + ts[1..];
    }
  }

  /** Text never matches a name pattern, so tags alone decide. */
  lemma NamesAvoid(ts: seq<Token>, q: string)
    requires AllPlain(ts) && PlainName(q) && AvoidsName(Tags(ts), q)
    ensures NoTag(ts, q)
  {
    hide Tags, StartsTag, StartsWith, PlainName, Distinct;
    TagsAreTokens(ts);
    forall i | 0 <= i < |ts| ensures !StartsTag(ts[i], q) {
      StartsTagByName(ts[i], q);
      if ts[i].Open? || ts[i].Empty? {
        assert ts[i] in Tags(ts);
        DistinctIsNoPrefix(ts[i].name, q);
      }
    }
  }

  /** A name pattern matches a tag exactly when it opens an element whose name starts so. */
  lemma StartsTagByName(t: Token, q: string)
    requires Plain(t) && PlainName(q)
    ensures StartsTag(t, q) <==> (t.Open? || t.Empty?) && StartsWith(t.name, q)
  {
    match t
    case Chars(_) =>
    case Close(name) =>
      assert (Inside(t) + ">")[0] == '/' && q[0] != '/';
    case Open(name, attributes) => PrefixOfName(name, ShowAttributes(attributes) + ">", Inside(t) + ">", attributes, q);
    case Empty(name, attributes) =>
      PrefixOfName(name, ShowAttributes(attributes) + "/>", Inside(t) + ">", attributes, q);
  }

  lemma PrefixOfName(name: string, rest: string, whole: string, attributes: seq<Attribute>, q: string)
    requires PlainName(name) && PlainName(q) && whole == name + rest
    requires rest == ShowAttributes(attributes) + ">" || rest == ShowAttributes(attributes) + "/>"
    ensures StartsWith(whole, q) <==> StartsWith(name, q)
  {
    hide ShowAttributes;
    LastOfAttributes(attributes);
    assert attributes == [] ==> ShowAttributes(attributes) == "" by { NoAttributesShown(attributes); }
    assert rest[0] == ' ' || rest[0] == '>' || rest[0] == '/';
    if |q| <= |name| {
      assert whole[..|q|] == name[..|q|];
    } else if |q| <= |whole| {
      assert whole[..|q|][|name|] == rest[0];
      assert q[|name|] != rest[0];
    }
  }

  lemma NoAttributesShown(attributes: seq<Attribute>)
    ensures attributes == [] ==> ShowAttributes(attributes) == ""
  {
  }

  // ---------------------------------------------------------------- reading attributes of token lists

  /** The first tag of that name with attributes. */
  function FirstWith(ts: seq<Token>, element: string): Option<Token> {
    if ts == [] then None
    else if TagWithAttributes(ts[0], element) then Some(ts[0])
    else FirstWith(ts[1..], element)
  }

  /** What the scanner reads: the first such tag, scanned. */
  function Read(ts: seq<Token>, element: string, key: string): Option<string> {
    match FirstWith(ts, element)
    case None => None
    case Some(t) => if t.Open? || t.Empty? then Scanned(t.attributes, key) else None
  }

  lemma {:induction false} FirstWithSplits(ts: seq<Token>, element: string)
    ensures match FirstWith(ts, element)
            case None => NoTagWithAttributes(ts, element)
            case Some(t) =>
              TagWithAttributes(t, element)
              && exists i :: 0 <= i < |ts| && ts[i] == t && NoTagWithAttributes(ts[..i], element)
  {
    if ts != [] && !TagWithAttributes(ts[0], element) {
      FirstWithSplits(ts[1..], element);
      if FirstWith(ts, element).Some? {
        var i :| && 0 <= i < |ts[1..]| && ts[1..][i] == FirstWith(ts, element).value
                 && NoTagWithAttributes(ts[1..][..i], element);
        assert ts[..i + 1] == [ts[0]] + ts[1..][..i];
        assert NoTagWithAttributes(ts[..i + 1], element);
      } else {
        assert forall i :: 0 < i < |ts| ==> ts[i] == ts[1..][i - 1];
      }
    } else if ts != [] {
      assert NoTagWithAttributes(ts[..0], element);
    }
  }

  lemma {:induction false} FirstWithOfTags(ts: seq<Token>, element: string)
    ensures FirstWith(ts, element) == FirstWith(Tags(ts), element)
  {
    if ts != [] {
      hide Tags;
      FirstWithOfTags(ts[1..], element);
      TagsCons(ts[0], ts[1..]);
      assert ts == [ts[0]] + ts[1..];
    } else {
      NoTags();
    }
  }

  lemma {:induction false} FirstWithAt(ts: seq<Token>, i: nat, element: string)
    requires i < |ts| && TagWithAttributes(ts[i], element) && NoTagWithAttributes(ts[..i], element)
    ensures FirstWith(ts, element) == Some(ts[i])
  {
    if i > 0 {
      assert ts[..i][0] == ts[0];
      var front := ts[1..][..i - 1];
      forall j | 0 <= j < |front| ensures !TagWithAttributes(front[j], element) {
        assert front[j] == ts[..i][j + 1];
      }
      FirstWithAt(ts[1..], i - 1, element);
    }
  }

  lemma {:induction false} FirstWithNone(ts: seq<Token>, element: string)
    requires NoTagWithAttributes(ts, element)
    ensures FirstWith(ts, element) == None
  {
    if ts != [] {
      FirstWithNone(ts[1..], element);
    }
  }

  /** On printed tokens the attribute scanner reads what the tokens carry. */
  lemma ReadPrinted(ts: seq<Token>, element: string, key: string)
    requires AllPlain(ts) && PlainName(element) && PlainName(key)
    ensures XmlAttribute(Print(ts), element, key) == Read(ts, element, key)
  {
    hide Print, Scanned, XmlAttribute;
    FirstWithSplits(ts, element);
    match FirstWith(ts, element)
    case None => NoAttribute(ts, element, key);
    case Some(t) =>
      var i :| 0 <= i < |ts| && ts[i] == t && NoTagWithAttributes(ts[..i], element);
      assert ts == ts[..i] + [t] + ts[i + 1..];
      AttributeOfPrint(ts[..i], t, ts[i + 1..], element, key);
  }

  // ---------------------------------------------------------------- framed elements

  /** An element printed over several lines. */
  function Framed(depth: nat, open: Token, body: seq<Token>): seq<Token>
    requires open.Open?
  {
    Line(depth, [open]) + body + Line(depth, [Close(open.name)])
  }

  /** The element itself, from its opening to its closing tag. */
  function Block(depth: nat, open: Token, body: seq<Token>): seq<Token>
    requires open.Open?
  {
    [open] + BlockContent(depth, body) + [Close(open.name)]
  }

  function BlockContent(depth: nat, body: seq<Token>): seq<Token> {
    [Chars("\n")] + body + [Chars(Indentation(depth))]
  }

  predicate NeverCloses(ts: seq<Token>, name: string) {
    forall i :: 0 <= i < |ts| ==> ts[i] != Close(name)
  }

  lemma FramedIsBlock(depth: nat, open: Token, body: seq<Token>)
    requires open.Open?
    ensures Framed(depth, open, body) == [Chars(Indentation(depth))] + Block(depth, open, body) + [Chars("\n")]
  {
  }

  lemma PlainIndentation(depth: nat)
    ensures Lacks(Indentation(depth), '<')
  {
  }

  /** A framed element is the next block of its name, after any part without that name. */
  lemma FramedBlock(before: seq<Token>, depth: nat, open: Token, body: seq<Token>, rest: seq<Token>, tag: string)
    requires open.Open? && open.name == tag && PlainName(tag) && Plain(open)
    requires AllPlain(before) && NoTag(before, tag) && AllPlain(body) && NeverCloses(body, tag)
    ensures Blocks(before + Framed(depth, open, body) + rest, tag) == [Block(depth, open, body)] + Blocks(rest, tag)
  {
    hide Blocks, StartsTag, PlainName;
    var indent, end, content := [Chars(Indentation(depth))], [Chars("\n")], BlockContent(depth, body);
    FramedIsBlock(depth, open, body);
    PlainIndentation(depth);
    NameStartsTag(open, tag);
    assert before + Framed(depth, open, body) + rest == (before + indent) + (Block(depth, open, body) + (end + rest));
    assert NoTag(before + indent, tag) by { TextStartsNoTag(Indentation(depth), tag); }
    BlocksPast(before + indent, Block(depth, open, body) + (end + rest), tag);
    assert Block(depth, open, body) + (end + rest) == [open] + content + [Close(tag)] + (end + rest);
    BlocksOfElement(open, content, end + rest, tag);
    assert NoTag(end, tag) by { TextStartsNoTag("\n", tag); }
    BlocksPast(end, rest, tag);
  }

  lemma TagsOfFramed(depth: nat, open: Token, body: seq<Token>)
    requires open.Open?
    ensures Tags(Framed(depth, open, body)) == [open] + Tags(body) + [Close(open.name)]
    ensures Tags(Block(depth, open, body)) == [open] + Tags(body) + [Close(open.name)]
  {
    hide Tags, Line;
    TagOfLine(depth, open);
    TagOfLine(depth, Close(open.name));
    TagsAppend3(Line(depth, [open]), body, Line(depth, [Close(open.name)]));
    TagsOfOne(open);
    TagsOfOne(Close(open.name));
    TagsOfOne(Chars("\n"));
    TagsOfOne(Chars(Indentation(depth)));
    TagsAppend3([Chars("\n")], body, [Chars(Indentation(depth))]);
    TagsAppend3([open], BlockContent(depth, body), [Close(open.name)]);
  }

  lemma NeverClosesByTags(ts: seq<Token>, name: string)
    requires NeverCloses(Tags(ts), name)
    ensures NeverCloses(ts, name)
  {
    TagsAreTokens(ts);
    forall i | 0 <= i < |ts| ensures ts[i] != Close(name) {
      if !ts[i].Chars? {
        assert ts[i] in Tags(ts);
      }
    }
  }

  lemma NameStartsTag(open: Token, tag: string)
    requires open.Open? && open.name == tag && Plain(open)
    ensures StartsTag(open, tag)
  {
    StartsTagByName(open, tag);
    assert tag[..|tag|] == tag;
  }

  // ---------------------------------------------------------------- kinds of framed elements

  lemma {:induction false} KindsOfTags(ts: seq<Token>, depth: nat)
    ensures TokenKinds(ts, depth) == TokenKinds(Tags(ts), depth)
    ensures DepthAfter(ts, depth) == DepthAfter(Tags(ts), depth)
  {
    if ts != [] {
      hide Tags;
      var head, tail := ts[0], ts[1..];
      TagsCons(head, tail);
      assert ts == [head] + tail;
      KindsOfTags(tail, match head
                        case Close(_) => if depth == 0 then 0 else depth - 1
                        case Open(_, _) => depth + 1
                        case _ => depth);
    }
  }

  /** A stretch that, within an element, neither leaves it nor is seen at depth zero. */
  predicate Contained(ts: seq<Token>) {
    TokenKinds(ts, 1) == [] && DepthAfter(ts, 1) == 1
  }

  lemma KindsOfOne(t: Token, depth: nat)
    ensures TokenKinds([t], depth) == if depth == 0 && (t.Open? || t.Empty?) then [t.name] else []
    ensures DepthAfter([t], depth)
         == match t
            case Close(_) => if depth == 0 then 0 else depth - 1
            case Open(_, _) => depth + 1
            case _ => depth
  {
    assert [t][1..] == [];
  }

  lemma KindsOfLine(depth: nat, t: Token, at: nat)
    requires !t.Chars?
    ensures TokenKinds(Line(depth, [t]), at) == TokenKinds([t], at)
    ensures DepthAfter(Line(depth, [t]), at) == DepthAfter([t], at)
  {
    hide TokenKinds, DepthAfter, Tags;
    TagOfLine(depth, t);
    KindsOfTags(Line(depth, [t]), at);
  }

  lemma KindsOfFramed(depth: nat, open: Token, body: seq<Token>)
    requires open.Open? && Contained(body)
    ensures TokenKinds(Framed(depth, open, body), 0) == [open.name]
    ensures DepthAfter(Framed(depth, open, body), 0) == 0
  {
    hide TokenKinds, DepthAfter, Line;
    var opening, closing := Line(depth, [open]), Line(depth, [Close(open.name)]);
    KindsOfLine(depth, open, 0);
    KindsOfOne(open, 0);
    KindsAppend(opening, body, 0);
    KindsAppend(opening + body, closing, 0);
    KindsOfLine(depth, Close(open.name), 1);
    KindsOfOne(Close(open.name), 1);
  }
}
