/** What the scanners compute on every printed document, stated on its tokens and on its element tree. */
module ScannerTheorems {
  import opened Results
  import opened Sequences
  import opened Text
  import opened Markup
  import opened Scanners

  // ---------------------------------------------------------------- blocks

  lemma {:induction false} BetweenOfPrint(ts: seq<Token>, start: string, end: string, close: Token)
    requires AllPlain(ts) && TagPattern(start) && TagPattern(end) && Show(close) == "<" + end
    requires forall t :: Plain(t) && StartsTag(t, end) ==> t == close
    ensures BlocksBetween(Print(ts), "<" + start, "<" + end) == PrintAll(TokenBlocks(ts, start, end))
    decreases |ts|
  {
    hide Print, Show, StartsTag, Plain, TagPattern, Find, DropTo, TakeTo;
    FindTag(ts, start);
    TakeAndDrop(ts, start);
    var from := DropTo(ts, start);
    if from != [] {
      FoundTag(ts, start);
      BlockStep(Print(ts), "<" + start, "<" + end);
      TakeAndDrop(from, end);
      var rest := DropTo(from, end);
      if rest != [] {
        assert rest[0] == close;
        BetweenOfPrint(rest[1..], start, end, close);
        PrintAllCons(TakeTo(from, end) + [close], TokenBlocks(rest[1..], start, end));
      }
      BlocksFromPrint(from, BlocksBetween(Print(ts), "<" + start, "<" + end), start, end, close);
    }
  }

  lemma BlocksFromPrint(from: seq<Token>, blocks: seq<string>, start: string, end: string, close: Token)
    requires AllPlain(from) && TagPattern(end) && Show(close) == "<" + end
    requires DropTo(from, end) != [] ==> DropTo(from, end)[0] == close
    requires BlockFrom(Print(from), blocks, "<" + start, "<" + end)
    ensures DropTo(from, end) == [] ==> blocks == []
    ensures DropTo(from, end) != [] ==>
              && blocks == [Print(TakeTo(from, end) + [close])]
                           + BlocksBetween(Print(DropTo(from, end)[1..]), "<" + start, "<" + end)
  {
    hide Print, Show, TakeTo, DropTo, FindFrom, BlocksBetween, StartsTag, AllPlain, TagPattern;
    FindTag(from, end);
    TakeAndDrop(from, end);
    var inner, rest := TakeTo(from, end), DropTo(from, end);
    if rest != [] {
      var tail := rest[1..];
      assert from == inner + ([close] + tail);
      BlockText(inner, close, tail);
    }
  }

  /** On printed tokens the block scanner returns exactly the printed blocks of tokens. */
  lemma BlocksOfPrint(ts: seq<Token>, tag: string)
    requires AllPlain(ts) && PlainName(tag)
    ensures XmlBlocks(Print(ts), tag) == PrintAll(Blocks(ts, tag))
  {
    ClosingPattern(tag);
    BetweenOfPrint(ts, tag, ClosePattern(tag), Close(tag));
  }

  lemma PrintAllCons(block: seq<Token>, blocks: seq<seq<Token>>)
    ensures PrintAll([block] + blocks) == [Print(block)] + PrintAll(blocks)
  {
    assert ([block] + blocks)[1..] == blocks;
  }

  lemma BlockText(inner: seq<Token>, close: Token, rest: seq<Token>)
    ensures var s := Print(inner + ([close] + rest));
            var length := |Print(inner)| + |Show(close)|;
            && length <= |s| && s[..length] == Print(inner + [close]) && s[length..] == Print(rest)
  {
    hide Print, Show;
    PrintAppend(inner, [close] + rest);
    PrintAppend(inner, [close]);
    PrintCons(close, rest);
    PrintOne(close);
    SplitText(Print(inner), Show(close), Print(rest));
  }

  lemma SplitText(a: string, b: string, c: string)
    ensures var s := a + (b + c);
            |a| + |b| <= |s| && s[..|a| + |b|] == a + b && s[|a| + |b|..] == c
  {
  }

  /** Parts without the tag contribute no block. */
  lemma BlocksPast(a: seq<Token>, b: seq<Token>, tag: string)
    requires NoTag(a, tag)
    ensures Blocks(a + b, tag) == Blocks(b, tag)
  {
    DropPast(a, b, tag);
  }

  /** An element whose content does not close it early is one block. */
  lemma BlocksOfElement(open: Token, content: seq<Token>, rest: seq<Token>, tag: string)
    requires PlainName(tag) && Plain(open) && open.Open? && StartsTag(open, tag) && AllPlain(content)
    requires forall i :: 0 <= i < |content| ==> content[i] != Close(tag)
    ensures Blocks([open] + content + [Close(tag)] + rest, tag) == [[open] + content + [Close(tag)]] + Blocks(rest, tag)
  {
    var end := ClosePattern(tag);
    ClosingPattern(tag);
    var inner := [open] + content;
    var all := [open] + content + [Close(tag)] + rest;
    assert all == inner + ([Close(tag)] + rest);
    assert all[0] == open;
    assert DropTo(all, tag) == all && TakeTo(all, tag) == [];
    assert NoTag(inner, end) by {
      forall i | 0 <= i < |inner| ensures !StartsTag(inner[i], end) {
        assert inner[i] == open || inner[i] == content[i - 1];
      }
    }
    DropPast(inner, [Close(tag)] + rest, end);
    assert DropTo(all, end) == [Close(tag)] + rest;
    assert TakeTo(all, end) == inner;
    assert ([Close(tag)] + rest)[1..] == rest;
    assert inner + [Close(tag)] == [open] + content + [Close(tag)];
  }

  // ---------------------------------------------------------------- text of an element

  /** The text scanner, once its three searches have succeeded. */
  lemma TextBetween(xml: string, tag: string, offset: nat, tagText: string, text: string, rest: string)
    requires Find(xml, StartMarker(tag)) == Some(offset) && offset <= |xml|
    requires tagText != "" && xml[offset..] == tagText + (text + rest)
    requires Find(xml[offset..], ">") == Some(|tagText| - 1)
    requires Find(text + rest, EndMarker(tag)) == Some(|text|)
    ensures TagText(xml, tag) == Some(Trim(text))
  {
    hide Find, FindFrom, StartMarker, EndMarker, Trim;
    assert (tagText + (text + rest))[|tagText|..] == text + rest;
    assert (text + rest)[..|text|] == text;
  }

  /** The text scanner on the first element of that name with text content. */
  lemma TextOfElement(before: seq<Token>, open: Token, text: string, rest: seq<Token>, tag: string)
    requires PlainName(tag) && Plain(open) && open.Open? && StartsTag(open, tag)
    requires AllPlain(before) && NoTag(before, tag) && AllPlain(rest) && Lacks(text, '<')
    ensures TagText(Print(before + [open, Chars(text), Close(tag)] + rest), tag) == Some(Trim(text))
  {
    hide Find, FindFrom, TagText, Trim, EndMarker, ClosePattern, StartsTag, Show;
    var all := before + [open, Chars(text), Close(tag)] + rest;
    var closing := [Close(tag)] + rest;
    var inner := [Chars(text)] + closing;
    ClosingPattern(tag);
    assert all == before + ([open] + inner);
    FirstTag(before, open, inner, tag);
    assert Plain(open) && AllPlain(inner) && AllPlain(all);
    PrintCons(open, inner);
    PrintCons(Chars(text), closing);
    PlainIsBracketFree(open);
    TagEnds(open, Print(inner));
    assert NoTag([Chars(text)], ClosePattern(tag)) by {
      assert !StartsTag(Chars(text), ClosePattern(tag)) by { TextStartsNoTag(text, ClosePattern(tag)); }
    }
    FirstTag([Chars(text)], Close(tag), rest, ClosePattern(tag));
    ShowChars(text);
    PrintOne(Chars(text));
    ShowIsNotEmpty(open);
    TextBetween(Print(all), tag, |Print(before)|, Show(open), text, Print(closing));
  }

  lemma TextStartsNoTag(text: string, q: string)
    ensures !StartsTag(Chars(text), q)
  {
  }

  lemma ShowChars(text: string)
    ensures Show(Chars(text)) == text
  {
  }

  lemma ShowIsNotEmpty(t: Token)
    requires !t.Chars?
    ensures Show(t) != ""
  {
  }

  lemma PrintOne(t: Token)
    ensures Print([t]) == Show(t)
  {
    PrintCons(t, []);
  }

  /** Searching a document for a tag whose pattern nothing before it matches. */
  lemma FirstTag(before: seq<Token>, t: Token, after: seq<Token>, q: string)
    requires AllPlain(before) && Plain(t) && AllPlain(after) && TagPattern(q)
    requires NoTag(before, q) && StartsTag(t, q)
    ensures var s := Print(before + ([t] + after));
            && Find(s, "<" + q) == Some(|Print(before)|)
            && |Print(before)| <= |s|
            && s[..|Print(before)|] == Print(before)
            && s[|Print(before)|..] == Print([t] + after)
  {
    hide FindFrom, Print, Show, DropTo, TakeTo, StartsTag;
    StopsAt(t, after, q);
    DropPast(before, [t] + after, q);
    assert before + [] == before;
    assert AllPlain(before + ([t] + after));
    FoundTag(before + ([t] + after), q);
  }

  lemma StopsAt(t: Token, after: seq<Token>, q: string)
    requires StartsTag(t, q)
    ensures DropTo([t] + after, q) == [t] + after && TakeTo([t] + after, q) == []
  {
    hide StartsTag;
  }

  /** Without such a tag there is no text. */
  lemma NoText(ts: seq<Token>, tag: string)
    requires PlainName(tag) && AllPlain(ts) && NoTag(ts, tag)
    ensures TagText(Print(ts), tag) == None
  {
    ClosingPattern(tag);
    assert ts + [] == ts;
    DropPast(ts, [], tag);
    FindTag(ts, tag);
  }

  // ---------------------------------------------------------------- attributes

  /** The first attribute of that name, as a reader of the tag would look it up. */
  function Lookup(attributes: seq<Attribute>, key: string): Option<string> {
    if attributes == [] then None
    else if attributes[0].name == key then Some(attributes[0].value)
    else Lookup(attributes[1..], key)
  }

  /**
   No attribute before the one looked up can be mistaken for it: the scanner matches `key='`
   anywhere, so a longer name ending in the key, or a value ending in `key=`, would be taken too.
   */
  predicate Unmistakable(attributes: seq<Attribute>, key: string) {
    attributes == [] || attributes[0].name == key
    || (&& !EndsWith(attributes[0].name, key) && !EndsWith(attributes[0].value, key + "=")
        && Unmistakable(attributes[1..], key))
  }

  /** A marker, which ends in its only quote, is not found before the first quote of a text. */
  lemma SkipToQuote(quoteless: string, rest: string, key: string)
    requires Lacks(quoteless, '\'') && PlainName(key)
    ensures Find(quoteless + "'" + rest, key + "='")
         == if EndsWith(quoteless, key + "=") then Some(|quoteless| - |key| - 1)
            else match Find(rest, key + "='") { case None => None case Some(i) => Some(|quoteless| + 1 + i) }
  {
    var marker, skipped := key + "='", quoteless + "'";
    var s := skipped + rest;
    assert s == quoteless + "'" + rest;
    var start := |quoteless| - |key| - 1;
    forall j: nat | j < |skipped| && j != start ensures !OccursAt(s, marker, j) {
      if j < start {
        assert s[j + |key| + 1] == quoteless[j + |key| + 1];
        WrongCharacter(s, marker, j, |key| + 1);
      } else {
        assert s[|quoteless|] == '\'';
        assert marker[|quoteless| - j] != '\'';
        WrongCharacter(s, marker, j, |quoteless| - j);
      }
    }
    if EndsWith(quoteless, key + "=") {
      assert s[start..start + |marker|] == quoteless[start..] + "'";
      FindAt(s, marker, start);
    } else {
      if start >= 0 {
        assert !OccursAt(s, marker, start) by {
          var k :| 0 <= k < |key| + 1 && quoteless[start..][k] != (key + "=")[k];
          assert s[start + k] == quoteless[start + k];
          WrongCharacter(s, marker, start, k);
        }
      }
      FindSkips(skipped, rest, marker);
    }
  }

  lemma EndsWithName(name: string, key: string)
    requires PlainName(name) && PlainName(key)
    ensures EndsWith(" " + name + "=", key + "=") <==> EndsWith(name, key)
  {
    var whole := " " + name + "=";
    if |key| <= |name| {
      assert whole[|whole| - |key| - 1..] == name[|name| - |key|..] + "=";
      if whole[|whole| - |key| - 1..] == key + "=" {
        assert (name[|name| - |key|..] + "=")[..|key|] == (key + "=")[..|key|];
      }
    } else if |key| + 1 <= |whole| {
      assert |key| == |name| + 1;
      assert whole[|whole| - |key| - 1..][0] == ' ';
      assert (key + "=")[0] == key[0];
    }
  }

  /**
   What the scanner returns for a printed list of attributes: the marker it looks for ends a name, or
   else a value, and what it takes is the text from the quote there up to the next one.
   */
  function Scanned(attributes: seq<Attribute>, key: string): Option<string> {
    if attributes == [] then None
    else if EndsWith(attributes[0].name, key) then Some(attributes[0].value)
    else if EndsWith(attributes[0].value, key + "=") then
      if |attributes| == 1 then None else Some(" " + attributes[1].name + "=")
    else Scanned(attributes[1..], key)
  }

  /** Some name or value ends like the marker. */
  predicate Marked(attributes: seq<Attribute>, key: string) {
    exists i :: 0 <= i < |attributes| && (EndsWith(attributes[i].name, key) || EndsWith(attributes[i].value, key + "="))
  }

  lemma MarkedStep(attributes: seq<Attribute>, key: string)
    requires attributes != []
    ensures Marked(attributes, key)
       <==> (|| EndsWith(attributes[0].name, key) || EndsWith(attributes[0].value, key + "=")
             || Marked(attributes[1..], key))
  {
    hide EndsWith;
    var rest := attributes[1..];
    assert forall i :: 0 < i < |attributes| ==> attributes[i] == rest[i - 1];
    assert forall i :: 0 <= i < |rest| ==> rest[i] == attributes[i + 1];
  }

  /** The marker search in one printed attribute, ` name='value'`, followed by more text. */
  lemma MarkerInAttribute(a: Attribute, rest: string, key: string)
    requires PlainName(a.name) && PlainValue(a.value) && PlainName(key)
    ensures var lead, marker := " " + a.name + "='", key + "='";
            var s := lead + (a.value + "'" + rest);
            if EndsWith(a.name, key) then
              && Find(s, marker).Some? && Find(s, marker).value + |marker| <= |s|
              && s[Find(s, marker).value + |marker|..] == a.value + "'" + rest
            else if EndsWith(a.value, key + "=") then
              && Find(s, marker).Some? && Find(s, marker).value + |marker| <= |s|
              && s[Find(s, marker).value + |marker|..] == rest
            else
              Find(s, marker)
              == match Find(rest, marker) { case None => None case Some(i) => Some(|lead + a.value + "'"| + i) }
  {
    hide Find, EndsWith;
    var lead := " " + a.name + "=";
    var s, after := " " + a.name + "='" + (a.value + "'" + rest), a.value + "'" + rest;
    assert s == lead + "'" + after;
    EndsWithName(a.name, key);
    EndLength(lead, key + "=");
    EndLength(a.value, key + "=");
    SkipToQuote(lead, after, key);
    SkipToQuote(a.value, rest, key);
  }

  lemma EndLength(s: string, end: string)
    ensures EndsWith(s, end) ==> |end| <= |s|
  {
  }

  /** The scanner's marker search over printed attributes, followed by text without quotes. */
  lemma {:induction false} MarkerInAttributes(attributes: seq<Attribute>, tail: string, key: string)
    requires PlainAttributes(attributes) && PlainName(key) && Lacks(tail, '\'')
    ensures var s, marker := ShowAttributes(attributes) + tail, key + "='";
            && (!Marked(attributes, key) ==> Find(s, marker) == None && Scanned(attributes, key) == None)
            && (Marked(attributes, key) ==>
                  && Find(s, marker).Some? && Find(s, marker).value + |marker| <= |s|
                  && Quoted(s[Find(s, marker).value + |marker|..], "'") == Scanned(attributes, key))
  {
    hide Find, EndsWith, Quoted, PlainName, PlainValue, Marked, ShowAttributes;
    if attributes == [] {
      NothingIsMarked(key);
      NothingShown();
      NoMarker(tail, key);
      assert ShowAttributes(attributes) + tail == tail;
    } else {
      var a, rest := attributes[0], attributes[1..];
      var others := ShowAttributes(rest) + tail;
      var lead := " " + a.name + "='";
      var skipped := lead + a.value + "'";
      ShowPrepended(a, rest);
      assert [a] + rest == attributes;
      RegroupShown(lead, a.value, "'", ShowAttributes(rest), tail);
      MarkedStep(attributes, key);
      MarkerInAttribute(a, others, key);
      if EndsWith(a.name, key) {
        QuotedValue(a.value, others) by { assert Lacks(a.value, '\'') by { ValueLacksQuote(a.value); } }
      } else if EndsWith(a.value, key + "=") {
        TakenAfterValue(rest, tail);
      } else {
        MarkerInAttributes(rest, tail, key);
        SuffixAfter(skipped, others, Find(others, key + "='"), |key + "='"|);
      }
    }
  }

  lemma RegroupShown(lead: string, value: string, quote: string, shown: string, tail: string)
    ensures (lead + value + quote + shown) + tail == lead + (value + quote + (shown + tail))
    ensures (lead + value + quote + shown) + tail == (lead + value + quote) + (shown + tail)
  {
  }

  lemma NothingIsMarked(key: string)
    ensures !Marked([], key)
  {
  }

  /** After a value taken for a marker, the text up to the next quote is the next attribute's name. */
  lemma TakenAfterValue(rest: seq<Attribute>, tail: string)
    requires PlainAttributes(rest) && Lacks(tail, '\'')
    ensures Quoted(ShowAttributes(rest) + tail, "'") == if rest == [] then None else Some(" " + rest[0].name + "=")
  {
    if rest == [] {
      assert ShowAttributes(rest) + tail == tail;
      assert Find(tail, "'") == None by { NoQuote(tail); }
    } else {
      hide Quoted, PlainName, PlainValue, ShowAttributes, Lacks;
      var name, value, shown := rest[0].name, rest[0].value, ShowAttributes(rest[1..]);
      NameLacksQuote(name);
      assert [rest[0]] + rest[1..] == rest;
      ShowPrepended(rest[0], rest[1..]);
      RegroupFirst(name, value, shown, tail);
      QuotedValue(" " + name + "=", value + "'" + shown + tail);
    }
  }

  lemma RegroupFirst(name: string, value: string, shown: string, tail: string)
    ensures " " + name + "='" + value + "'" + shown + tail == " " + name + "=" + "'" + (value + "'" + shown + tail)
  {
    assert "='" == "=" + "'";
  }

  lemma NoQuote(s: string)
    requires Lacks(s, '\'')
    ensures Find(s, "'") == None
  {
    forall j: int ensures !OccursAt(s, "'", j) {
      if 0 <= j < |s| {
        WrongCharacter(s, "'", j, 0);
      }
    }
    FindNothing(s, "'");
  }

  lemma NameLacksQuote(name: string)
    requires PlainName(name)
    ensures Lacks(" " + name + "=", '\'')
  {
  }

  lemma ValueLacksQuote(value: string)
    requires PlainValue(value)
    ensures Lacks(value, '\'')
  {
  }

  lemma SuffixAfter(skipped: string, rest: string, found: Option<nat>, n: nat)
    ensures found.Some? && found.value + n <= |rest| ==>
              && |skipped| + found.value + n <= |skipped + rest|
              && (skipped + rest)[|skipped| + found.value + n..] == rest[found.value + n..]
  {
  }

  lemma NoMarker(s: string, key: string)
    requires Lacks(s, '\'')
    ensures Find(s, key + "='") == None
  {
    var marker := key + "='";
    forall j: int ensures !OccursAt(s, marker, j) {
      if 0 <= j && j + |marker| <= |s| {
        WrongCharacter(s, marker, j, |key| + 1);
      }
    }
    FindNothing(s, marker);
  }

  lemma QuotedValue(value: string, rest: string)
    requires Lacks(value, '\'')
    ensures Quoted(value + "'" + rest, "'") == Some(value)
  {
    var s := value + "'" + rest;
    assert s == value + ("'" + rest);
    NoStart(value, "'" + rest, "'");
    assert s[|value|] == '\'';
    FindAt(s, "'", |value|);
  }

  /** Reading an attribute of any printed tag, exactly. */
  lemma AttributeOfTag(t: Token, key: string)
    requires Plain(t) && (t.Open? || t.Empty?) && PlainName(key)
    ensures TagAttribute(Show(t), key) == Scanned(t.attributes, key)
  {
    hide Find, Quoted, Scanned, Marked, PlainName, PlainAttributes, PlainValue, TagAttribute, Show, ShowAttributes;
    var tail, lead := if t.Open? then ">" else "/>", "<" + t.name;
    var body := ShowAttributes(t.attributes) + tail;
    assert Show(t) == lead + body by { TagIsNameAndBody(t); }
    MarkerInAttributes(t.attributes, tail, key);
    MarkerAfterName(t, body, key);
    NoDoubleQuote(t, key);
    ReadFromBody(lead, body, key);
  }

  /** Where no attribute is found in the name, nor with double quotes, it is read from what follows the name. */
  lemma ReadFromBody(lead: string, body: string, key: string)
    requires Find(lead + body, key + "=\"") == None
    requires Find(body, key + "='").Some? ==> Find(body, key + "='").value + |key + "='"| <= |body|
    requires Find(lead + body, key + "='")
          == match Find(body, key + "='") { case None => None case Some(i) => Some(|lead| + i) }
    ensures TagAttribute(lead + body, key)
         == match Find(body, key + "='")
            case None => None
            case Some(i) => Quoted(body[i + |key + "='"|..], "'")
  {
    hide Find, Quoted;
    SuffixAfter(lead, body, Find(body, key + "='"), |key + "='"|);
  }

  // ---------------------------------------------------------------- attributes of any text, with quotes of either kind

  /** The pattern occurs here and nowhere before. */
  ghost predicate FirstAt(s: string, p: string, at: int) {
    OccursAt(s, p, at) && forall j :: 0 <= j < at ==> !OccursAt(s, p, j)
  }

  /** A text up to the first quote. */
  predicate UpToQuote(s: string, value: string, quote: char) {
    |value| < |s| && s[..|value|] == value && s[|value|] == quote && Lacks(value, quote)
  }

  lemma QuotedIff(s: string, value: string, quote: char)
    ensures Quoted(s, [quote]) == Some(value) <==> UpToQuote(s, value, quote)
  {
    FindIsFirst(s, [quote]);
    if Quoted(s, [quote]) == Some(value) {
      var at := Find(s, [quote]).value;
      assert s[at..at + 1] == [quote] && s[at] == quote;
      forall i | 0 <= i < |value| ensures value[i] != quote {
        assert !OccursAt(s, [quote], i);
        assert s[i..i + 1] == [s[i]];
      }
    }
    if UpToQuote(s, value, quote) {
      forall j | 0 <= j < |value| ensures !OccursAt(s, [quote], j) {
        assert s[j] == value[j];
        WrongCharacter(s, [quote], j, 0);
      }
      FindAt(s, [quote], |value|);
    }
  }

  /** What the first marker, if there is one, is followed by. */
  ghost predicate ReadAfter(tag: string, marker: string, value: string, quote: char) {
    exists at :: FirstAt(tag, marker, at) && UpToQuote(tag[at + |marker|..], value, quote)
  }

  lemma FirstIsFound(tag: string, marker: string)
    ensures Find(tag, marker).Some? ==> FirstAt(tag, marker, Find(tag, marker).value)
    ensures Find(tag, marker).None? <==> forall j: int :: !OccursAt(tag, marker, j)
    ensures forall i, j :: FirstAt(tag, marker, i) && FirstAt(tag, marker, j) ==> i == j
  {
    FindIsFirst(tag, marker);
  }

  /**
   The value read from any tag: what stands between the first marker with a single quote and the next such
   quote, and only where there is no such marker, the same with double quotes.
   */
  lemma TagAttributeIff(tag: string, key: string, value: string)
    ensures TagAttribute(tag, key) == Some(value)
       <==> (|| ReadAfter(tag, key + "='", value, '\'')
             || ((forall j: int :: !OccursAt(tag, key + "='", j)) && ReadAfter(tag, key + "=\"", value, '"')))
  {
    hide Quoted, UpToQuote, Find;
    var single, double := key + "='", key + "=\"";
    FirstIsFound(tag, single);
    FirstIsFound(tag, double);
    if Find(tag, single).Some? {
      QuotedIff(tag[Find(tag, single).value + |single|..], value, '\'');
    } else if Find(tag, double).Some? {
      QuotedIff(tag[Find(tag, double).value + |double|..], value, '"');
    }
  }

  /** The tag that is looked into: from the first opening of that name with a space after it to the next bracket. */
  ghost predicate OpensAt(xml: string, element: string, at: int, end: int) {
    FirstAt(xml, "<" + element + " ", at) && FirstAt(xml[at..], ">", end)
  }

  lemma XmlAttributeOfTag(xml: string, element: string, key: string, at: nat, end: nat)
    requires OpensAt(xml, element, at, end)
    ensures XmlAttribute(xml, element, key) == TagAttribute(xml[at..][..end + 1], key)
  {
    FirstIsFound(xml, "<" + element + " ");
    FirstIsFound(xml[at..], ">");
    hide Find, TagAttribute;
  }

  // ---------------------------------------------------------------- the pieces of a split text

  function Joined(pieces: seq<string>, separator: string): string {
    if pieces == [] then ""
    else if |pieces| == 1 then pieces[0]
    else pieces[0] + separator + Joined(pieces[1..], separator)
  }

  ghost predicate FreeOf(s: string, p: string) {
    forall j: int :: !OccursAt(s, p, j)
  }

  /** Splitting loses nothing but the separators, and leaves none of them in any piece. */
  lemma {:induction false} SplitParts(s: string, separator: string)
    requires separator != ""
    ensures Split(s, separator) != [] && Joined(Split(s, separator), separator) == s
    ensures forall piece :: piece in Split(s, separator) ==> FreeOf(piece, separator)
    decreases |s|
  {
    FindIsFirst(s, separator);
    if Find(s, separator).Some? {
      var at := Find(s, separator).value;
      var front, rest := s[..at], s[at + |separator|..];
      SplitParts(rest, separator);
      forall j: int ensures !OccursAt(front, separator, j) {
        FrontOccursNot(s, at, separator, j);
      }
      assert s == front + separator + rest;
      assert ([front] + Split(rest, separator))[1..] == Split(rest, separator);
    }
  }

  lemma FrontOccursNot(s: string, at: nat, p: string, j: int)
    requires at <= |s| && forall k :: 0 <= k < at ==> !OccursAt(s, p, k)
    requires p != ""
    ensures !OccursAt(s[..at], p, j)
  {
    if 0 <= j && j + |p| <= at {
      assert s[..at][j..j + |p|] == s[j..j + |p|];
      assert !OccursAt(s, p, j);
    }
  }

  // ---------------------------------------------------------------- when the attribute read is the wanted one

  /** The first attribute taken is not the wanted one, but happens to give the text that looking it up gives. */
  predicate RightByChance(attributes: seq<Attribute>, key: string) {
    && attributes != [] && attributes[0].name != key
    && var wanted := Lookup(attributes[1..], key);
       if EndsWith(attributes[0].name, key) then wanted == Some(attributes[0].value)
       else if EndsWith(attributes[0].value, key + "=") then
         wanted == if |attributes| == 1 then None else Some(" " + attributes[1].name + "=")
       else RightByChance(attributes[1..], key)
  }

  lemma WholeIsEnd(s: string)
    ensures EndsWith(s, s)
  {
  }

  /** The attribute read is the one looked up exactly if nothing before it can be mistaken for it, or by chance. */
  lemma {:induction false} ReadsLookupIff(attributes: seq<Attribute>, key: string)
    ensures Scanned(attributes, key) == Lookup(attributes, key)
       <==> Unmistakable(attributes, key) || RightByChance(attributes, key)
  {
    if attributes != [] {
      hide EndsWith;
      WholeIsEnd(key);
      ReadsLookupIff(attributes[1..], key);
    }
  }

  /** A longer name before the wanted one is taken for it. */
  lemma LongerNameIsTaken()
    ensures TagAttribute("<source profile='a' file='b'/>", "file") == Some("a")
    ensures XmlAttribute("<source profile='a' file='b'/>", "source", "file") == Some("a")
    ensures "<source profile='a' file='b'/>" == Show(Empty("source", SAMPLE)) && Lookup(SAMPLE, "file") == Some("b")
  {
    hide Plain, PlainName, XmlAttribute, TagAttribute, Show, Scanned, Lookup, SAMPLE, NoTagWithAttributes;
    var t := Empty("source", SAMPLE);
    SampleIsPlain();
    SampleText();
    SampleIsTaken();
    AttributeOfTag(t, "file");
    assert [] + [t] + [] == [t] && SAMPLE != [] && NoTagWithAttributes([], "source") by { NoneBefore(); }
    AttributeOfPrint([], t, [], "source", "file");
    PrintOne(t);
  }

  lemma NoneBefore()
    ensures SAMPLE != [] && NoTagWithAttributes([], "source")
  {
  }

  const SAMPLE: seq<Attribute> := [Attribute("profile", "a"), Attribute("file", "b")]

  lemma SampleIsPlain()
    ensures Plain(Empty("source", SAMPLE)) && PlainName("source") && PlainName("file")
  {
    SampleNames();
    hide PlainName;
  }

  lemma SampleNames()
    ensures PlainName("source") && PlainName("file") && PlainName("profile")
  {
    SampleWord("source");
    SampleWord("file");
    SampleWord("profile");
  }

  lemma SampleWord(s: string)
    requires s != "" && forall i :: 0 <= i < |s| ==> 'a' <= s[i] <= 'z'
    ensures PlainName(s)
  {
  }

  lemma SampleText()
    ensures Show(Empty("source", SAMPLE)) == "<source profile='a' file='b'/>"
  {
    hide ShowAttributes;
    ShowPrepended(SAMPLE[0], SAMPLE[1..]);
    ShowPrepended(SAMPLE[1], []);
    NothingShown();
    assert [SAMPLE[0]] + SAMPLE[1..] == SAMPLE && [SAMPLE[1]] + [] == SAMPLE[1..];
    SampleLiterals();
  }

  lemma SampleLiterals()
    ensures "<" + ("source" + (" " + "profile" + "='" + "a" + "'" + (" " + "file" + "='" + "b" + "'" + "")) + "/") + ">"
         == "<source profile='a' file='b'/>"
  {
  }

  lemma SampleIsTaken()
    ensures Scanned(SAMPLE, "file") == Some("a") && Lookup(SAMPLE, "file") == Some("b")
  {
    assert EndsWith("profile", "file") && "profile" != "file";
    assert SAMPLE[1..] == [Attribute("file", "b")];
  }

  lemma TagIsNameAndBody(t: Token)
    requires t.Open? || t.Empty?
    ensures Show(t) == ("<" + t.name) + (ShowAttributes(t.attributes) + if t.Open? then ">" else "/>")
  {
    hide ShowAttributes;
  }

  lemma NoDoubleQuote(t: Token, key: string)
    requires Plain(t) && !t.Chars?
    ensures Find(Show(t), key + "=\"") == None
  {
    hide ShowAttributes, Find;
    InsideIsPlain(t);
    var s, marker := Show(t), key + "=\"";
    assert s == "<" + Inside(t) + ">";
    forall j: int ensures !OccursAt(s, marker, j) {
      if 0 <= j && j + |marker| <= |s| {
        WrongCharacter(s, marker, j, |key| + 1);
      }
    }
    FindNothing(s, marker);
  }

  lemma MarkerAfterName(t: Token, body: string, key: string)
    requires Plain(t) && (t.Open? || t.Empty?) && PlainName(key)
    requires body == ShowAttributes(t.attributes) + if t.Open? then ">" else "/>"
    ensures Find("<" + t.name + body, key + "='")
         == match Find(body, key + "='") { case None => None case Some(i) => Some(|t.name| + 1 + i) }
  {
    hide Find;
    var lead, marker := "<" + t.name, key + "='";
    assert lead[1..] == t.name;
    LastOfAttributes(t.attributes);
    forall j: nat | j < |lead| ensures !OccursAt(lead + body, marker, j) {
      MarkerNotInName(lead, body, key, j);
    }
    FindSkips(lead, body, marker);
  }

  /** A marker starting inside the tag's name would need `=` or a quote before the first space. */
  lemma MarkerNotInName(lead: string, body: string, key: string, j: nat)
    requires PlainName(key) && |lead| > 1 && lead[0] == '<' && PlainName(lead[1..])
    requires body != "" && (body[0] == ' ' || body[0] == '>' || body[0] == '/')
    requires j < |lead|
    ensures !OccursAt(lead + body, key + "='", j)
  {
    var s, marker := lead + body, key + "='";
    if j + |key| + 2 <= |lead| {
      assert s[j + |key| + 1] == lead[1..][j + |key|];
      WrongCharacter(s, marker, j, |key| + 1);
    } else {
      assert s[|lead|] == body[0];
      WrongCharacter(s, marker, j, |lead| - j);
    }
  }

  /** A tag the attribute scanner looks into: named exactly so and carrying at least one attribute. */
  predicate TagWithAttributes(t: Token, element: string) {
    (t.Open? || t.Empty?) && t.name == element && t.attributes != []
  }

  lemma AttributePattern(t: Token, element: string)
    requires Plain(t) && PlainName(element)
    ensures StartsTag(t, element + " ") <==> TagWithAttributes(t, element)
  {
    if t.Open? || t.Empty? {
      TagPatternAtName(t, element);
    } else if t.Close? {
      assert (Inside(t) + ">")[0] == '/';
      assert (element + " ")[0] == element[0];
    }
  }

  lemma TagPatternAtName(t: Token, element: string)
    requires Plain(t) && PlainName(element) && (t.Open? || t.Empty?)
    ensures StartsWith(Inside(t) + ">", element + " ") <==> TagWithAttributes(t, element)
  {
    hide StartsWith, PlainName, PlainValue;
    var ending := if t.Empty? then "/>" else ">";
    if t.attributes != [] {
      LastOfAttributes(t.attributes);
      var shown := ShowAttributes(t.attributes);
      var rest := shown[1..] + ending;
      assert Inside(t) + ">" == t.name + (" " + rest) by {
        hide ShowAttributes;
        assert shown == " " + shown[1..];
      }
      NameThenSpace(t.name, rest, element);
    } else {
      assert Inside(t) + ">" == t.name + ending;
      NameThenBracket(t.name, ending, element);
    }
  }

  lemma NameThenSpace(name: string, rest: string, element: string)
    requires PlainName(name) && PlainName(element)
    ensures StartsWith(name + (" " + rest), element + " ") <==> name == element
  {
    var s, p := name + (" " + rest), element + " ";
    if StartsWith(s, p) {
      assert s[|element|] == p[|element|] == ' ' by { assert s[..|p|][|element|] == p[|element|]; }
      if |element| > |name| {
        assert p[|name|] == s[|name|] == ' ' by { assert s[..|p|][|name|] == p[|name|]; }
        assert false;
      }
      assert |element| == |name|;
      assert s[..|p|][..|name|] == p[..|name|];
      assert s[..|name|] == name && p[..|name|] == element;
    }
    if name == element {
      assert s[..|p|] == p;
    }
  }

  lemma NameThenBracket(name: string, rest: string, element: string)
    requires PlainName(name) && PlainName(element) && (rest == ">" || rest == "/>")
    ensures !StartsWith(name + rest, element + " ")
  {
    var s, p := name + rest, element + " ";
    if |p| <= |s| {
      assert s[|element|] != ' ';
      assert s[..|p|][|element|] != p[|element|];
    }
  }

  predicate NoTagWithAttributes(ts: seq<Token>, element: string) {
    forall i :: 0 <= i < |ts| ==> !TagWithAttributes(ts[i], element)
  }

  /** The attribute scanner reads the first tag of that name that has attributes at all. */
  lemma AttributeOfPrint(before: seq<Token>, t: Token, after: seq<Token>, element: string, key: string)
    requires AllPlain(before) && Plain(t) && AllPlain(after) && PlainName(element) && PlainName(key)
    requires NoTagWithAttributes(before, element) && TagWithAttributes(t, element)
    ensures XmlAttribute(Print(before + [t] + after), element, key) == Scanned(t.attributes, key)
  {
    hide Find, FindFrom, Print, Show, StartsTag, Scanned, TagAttribute;
    var all, q := before + [t] + after, element + " ";
    assert all == before + ([t] + after);
    forall i | 0 <= i < |before| ensures !StartsTag(before[i], q) {
      AttributePattern(before[i], element);
    }
    AttributePattern(t, element);
    assert "<" + element + " " == "<" + q;
    FirstTag(before, t, after, q);
    PrintCons(t, after);
    PlainIsBracketFree(t);
    TagEnds(t, Print(after));
    ShowIsNotEmpty(t);
    assert (Show(t) + Print(after))[..|Show(t)|] == Show(t);
    AttributeOfTag(t, key);
  }

  /** It is the attribute that the tag carries exactly under the condition on what stands before it. */
  lemma AttributeIsRightIff(before: seq<Token>, t: Token, after: seq<Token>, element: string, key: string)
    requires AllPlain(before) && Plain(t) && AllPlain(after) && PlainName(element) && PlainName(key)
    requires NoTagWithAttributes(before, element) && TagWithAttributes(t, element)
    ensures XmlAttribute(Print(before + [t] + after), element, key) == Lookup(t.attributes, key)
       <==> Unmistakable(t.attributes, key) || RightByChance(t.attributes, key)
  {
    hide Print, XmlAttribute, Plain, PlainName, Scanned, Lookup, Unmistakable, RightByChance, NoTagWithAttributes;
    AttributeOfPrint(before, t, after, element, key);
    ReadsLookupIff(t.attributes, key);
  }

  lemma NoAttribute(ts: seq<Token>, element: string, key: string)
    requires AllPlain(ts) && PlainName(element) && NoTagWithAttributes(ts, element)
    ensures XmlAttribute(Print(ts), element, key) == None
  {
    var q := element + " ";
    forall i | 0 <= i < |ts| ensures !StartsTag(ts[i], q) {
      AttributePattern(ts[i], element);
    }
    assert ts + [] == ts;
    DropPast(ts, [], q);
    assert "<" + element + " " == "<" + q;
    FindTag(ts, q);
  }

  // ---------------------------------------------------------------- direct children

  /** The names of the elements at depth zero of a token list. */
  function TokenKinds(ts: seq<Token>, depth: nat): seq<string> {
    if ts == [] then []
    else match ts[0]
      case Chars(_) => TokenKinds(ts[1..], depth)
      case Close(_) => TokenKinds(ts[1..], if depth == 0 then 0 else depth - 1)
      case Empty(name, _) => (if depth == 0 then [name] else []) + TokenKinds(ts[1..], depth)
      case Open(name, _) => (if depth == 0 then [name] else []) + TokenKinds(ts[1..], depth + 1)
  }

  lemma {:induction false} WordOfName(name: string, rest: string)
    requires forall i :: 0 <= i < |name| ==> !IsWhitespace(name[i])
    requires rest == "" || IsWhitespace(rest[0])
    ensures WordPrefix(name + rest) == name
  {
    if name == "" {
      assert name + rest == rest;
    } else {
      assert (name + rest)[1..] == name[1..] + rest;
      WordOfName(name[1..], rest);
    }
  }

  /** The scanner's reading of one tag: its name, and whether it opens, closes or stands alone. */
  lemma TagKind(t: Token, depth: nat)
    requires BracketFree(t) && !t.Chars?
    ensures Named(Inside(t), depth) == if depth == 0 && !t.Close? then [t.name] else []
    ensures Nested(Inside(t), depth)
         == if t.Close? then (if depth == 0 then 0 else depth - 1) else if t.Open? then depth + 1 else depth
  {
    hide ShowAttributes;
    var inside := Inside(t);
    if t.Close? {
      assert inside[..1] == "/";
    } else {
      assert inside[0] == t.name[0] && inside[..1] == [t.name[0]];
      LastOfAttributes(t.attributes);
      TagWord(t);
      assert inside[|inside| - 1..] == [inside[|inside| - 1]];
      if t.Open? {
        EndOfOpenTag(t);
      }
    }
  }

  lemma EndOfOpenTag(t: Token)
    requires BracketFree(t) && t.Open?
    ensures Inside(t) != "" && Inside(t)[|Inside(t)| - 1] != '/'
  {
    LastOfAttributes(t.attributes);
    if t.attributes == [] {
      assert Inside(t) == t.name;
    }
  }

  lemma TagWord(t: Token)
    requires BracketFree(t) && (t.Open? || t.Empty?)
    ensures TrimEndSlashes(FirstWord(Inside(t))) == t.name
  {
    hide FirstWord, TrimEndSlashes, ShowAttributes, PlainName, BracketFreeAttributes;
    var shown := ShowAttributes(t.attributes);
    LastOfAttributes(t.attributes);
    EndSlashes(t.name);
    if t.attributes != [] {
      FirstWordOf(t.name, "", if t.Empty? then shown + "/" else shown);
      assert shown == " " + shown[1..];
      assert Inside(t) == t.name + "" + if t.Empty? then shown + "/" else shown;
    } else {
      NothingShown();
      FirstWordOf(t.name, if t.Empty? then "/" else "", "");
      assert Inside(t) == t.name + (if t.Empty? then "/" else "") + "";
    }
  }

  /** The first word of a name, perhaps with a slash, before nothing or a space. */
  lemma FirstWordOf(name: string, slash: string, rest: string)
    requires PlainName(name) && (slash == "" || slash == "/") && (rest == "" || rest[0] == ' ')
    ensures FirstWord(name + slash + rest) == name + slash
  {
    var word := name + slash;
    assert (word + rest)[0] == name[0];
    WordOfName(word, rest);
  }

  lemma EndSlashes(name: string)
    requires PlainName(name)
    ensures TrimEndSlashes(name + "") == name && TrimEndSlashes(name + "/") == name
  {
    assert name + "" == name && (name + "/")[..|name|] == name;
  }

  lemma {:induction false} LastOfAttributes(attributes: seq<Attribute>)
    ensures attributes != [] ==>
              && |ShowAttributes(attributes)| > 0
              && ShowAttributes(attributes)[0] == ' '
              && ShowAttributes(attributes)[|ShowAttributes(attributes)| - 1] == '\''
  {
    if |attributes| > 1 {
      LastOfAttributes(attributes[1..]);
    }
  }

  /** On printed tokens the depth scanner collects exactly the names at depth zero. */
  lemma {:induction false} KindsOfPrint(ts: seq<Token>, depth: nat)
    requires AllBracketFree(ts)
    ensures ChildKinds(Print(ts), depth) == TokenKinds(ts, depth)
  {
    hide Find, FindFrom, ChildKinds, Show, Named, Nested;
    if ts == [] {
      NoKinds(depth);
    } else {
      var t, rest := ts[0], ts[1..];
      if t.Chars? {
        KindsOfPrint(rest, depth);
        ShowChars(t.text);
        KindsSkipText(t.text, Print(rest), depth);
      } else {
        TagKind(t, depth);
        KindsOfTag(t, Print(rest), depth);
        KindsOfPrint(rest, Nested(Inside(t), depth));
      }
    }
  }

  lemma NoKinds(depth: nat)
    ensures ChildKinds("", depth) == []
  {
  }

  /** The scanner's turn at a tag. */
  lemma KindsOfTag(t: Token, rest: string, depth: nat)
    requires BracketFree(t) && !t.Chars?
    ensures ChildKinds(Show(t) + rest, depth) == Named(Inside(t), depth) + ChildKinds(rest, Nested(Inside(t), depth))
  {
    hide Inside, Named, Nested, ChildKinds, BracketFree;
    InsideHasNoBracket(t);
    KindsBetweenBrackets(Inside(t), rest, depth);
  }

  lemma KindsBetweenBrackets(inside: string, rest: string, depth: nat)
    requires Lacks(inside, '>')
    ensures ChildKinds("<" + inside + ">" + rest, depth)
         == Named(inside, depth) + ChildKinds(rest, Nested(inside, depth))
  {
    hide Find, Named, Nested;
    var text := "<" + inside + ">" + rest;
    OpensAtOnce(inside + ">" + rest);
    assert text == "<" + (inside + ">" + rest) && text[1..] == inside + (">" + rest);
    EndsAfter(inside, rest);
    assert (inside + (">" + rest))[..|inside|] == inside;
    assert (inside + (">" + rest))[|inside| + 1..] == rest;
  }

  /** Declarations and comments without a closing bracket are neither seen nor nested, at any depth. */
  lemma DeclarationIsSkipped(mark: char, text: string, rest: string, depth: nat)
    requires (mark == '?' || mark == '!') && Lacks(text, '>')
    ensures ChildKinds("<" + ([mark] + text) + ">" + rest, depth) == ChildKinds(rest, depth)
  {
    var inside := [mark] + text;
    assert inside[..1] == [mark];
    hide ChildKinds;
    KindsBetweenBrackets(inside, rest, depth);
  }

  lemma OpensAtOnce(rest: string)
    ensures Find("<" + rest, "<") == Some(0)
  {
    assert OccursAt("<" + rest, "<", 0);
    FindAt("<" + rest, "<", 0);
  }

  lemma EndsAfter(inside: string, rest: string)
    requires Lacks(inside, '>')
    ensures Find(inside + (">" + rest), ">") == Some(|inside|)
  {
    NoStart(inside, ">" + rest, ">");
    assert OccursAt(inside + (">" + rest), ">", |inside|);
    FindAt(inside + (">" + rest), ">", |inside|);
  }

  lemma KindsSkipText(text: string, rest: string, depth: nat)
    requires Lacks(text, '<')
    ensures ChildKinds(text + rest, depth) == ChildKinds(rest, depth)
  {
    hide Find, Named, Nested;
    NoStart(text, rest, "<");
    FindSkips(text, rest, "<");
    FindIsFirst(rest, "<");
    SuffixAfter(text, rest, Find(rest, "<"), 1);
  }

  lemma {:induction false} KindsAppend(a: seq<Token>, b: seq<Token>, depth: nat)
    ensures TokenKinds(a + b, depth) == TokenKinds(a, depth) + TokenKinds(b, DepthAfter(a, depth))
    ensures DepthAfter(a + b, depth) == DepthAfter(b, DepthAfter(a, depth))
  {
    if a == [] {
      assert a + b == b;
    } else {
      assert (a + b)[0] == a[0] && (a + b)[1..] == a[1..] + b;
      KindsAppend(a[1..], b, match a[0]
                             case Close(_) => if depth == 0 then 0 else depth - 1
                             case Open(_, _) => depth + 1
                             case _ => depth);
    }
  }

  function DepthAfter(ts: seq<Token>, depth: nat): nat {
    if ts == [] then depth
    else match ts[0]
      case Close(_) => DepthAfter(ts[1..], if depth == 0 then 0 else depth - 1)
      case Open(_, _) => DepthAfter(ts[1..], depth + 1)
      case _ => DepthAfter(ts[1..], depth)
  }

  // ---------------------------------------------------------------- element trees

  datatype Node =
    | Content(text: string)
    | Void(name: string, attributes: seq<Attribute>)
    | Element(name: string, attributes: seq<Attribute>, children: seq<Node>)

  function Tokens(n: Node): seq<Token>
    decreases n, 1
  {
    match n
    case Content(text) => [Chars(text)]
    case Void(name, attributes) => [Empty(name, attributes)]
    case Element(name, attributes, children) => [Open(name, attributes)] + TokensOf(children) + [Close(name)]
  }

  function TokensOf(nodes: seq<Node>): seq<Token>
    decreases nodes, 0
  {
    if nodes == [] then [] else Tokens(nodes[0]) + TokensOf(nodes[1..])
  }

  /** The element names among sibling nodes. */
  function NamesOf(nodes: seq<Node>): seq<string> {
    if nodes == [] then []
    else (if nodes[0].Content? then [] else [nodes[0].name]) + NamesOf(nodes[1..])
  }

  lemma KindsCons(t: Token, rest: seq<Token>, depth: nat)
    ensures TokenKinds([t] + rest, depth)
         == match t
            case Chars(_) => TokenKinds(rest, depth)
            case Close(_) => TokenKinds(rest, if depth == 0 then 0 else depth - 1)
            case Empty(name, _) => (if depth == 0 then [name] else []) + TokenKinds(rest, depth)
            case Open(name, _) => (if depth == 0 then [name] else []) + TokenKinds(rest, depth + 1)
  {
    assert ([t] + rest)[1..] == rest;
  }

  lemma NoKindsOfNothing()
    ensures TokenKinds([], 0) == []
  {
  }

  lemma NameOf(n: Node)
    ensures NamesOf([n]) == if n.Content? then [] else [n.name]
  {
    assert [n][1..] == [];
  }

  lemma RegroupElement(a: seq<Token>, b: seq<Token>, c: seq<Token>, d: seq<Token>)
    ensures (a + b + c) + d == a + (b + (c + d))
  {
  }

  lemma {:induction false} KindsOfNode(n: Node, rest: seq<Token>, depth: nat)
    ensures TokenKinds(Tokens(n) + rest, depth)
         == (if depth == 0 then NamesOf([n]) else []) + TokenKinds(rest, depth)
    decreases n, 1
  {
    hide TokenKinds, NamesOf, TokensOf;
    NameOf(n);
    match n
    case Content(text) => KindsCons(Chars(text), rest, depth);
    case Void(name, attributes) => KindsCons(Empty(name, attributes), rest, depth);
    case Element(name, attributes, children) =>
      var inner := TokensOf(children) + ([Close(name)] + rest);
      RegroupElement([Open(name, attributes)], TokensOf(children), [Close(name)], rest);
      KindsCons(Open(name, attributes), inner, depth);
      KindsOfNodes(children, [Close(name)] + rest, depth + 1);
      KindsCons(Close(name), rest, depth + 1);
  }

  lemma NodesStep(nodes: seq<Node>)
    ensures nodes == [] ==> TokensOf(nodes) == [] && NamesOf(nodes) == []
    ensures nodes != [] ==>
              && TokensOf(nodes) == Tokens(nodes[0]) + TokensOf(nodes[1..])
              && NamesOf(nodes) == NamesOf([nodes[0]]) + NamesOf(nodes[1..])
  {
    if nodes != [] {
      NameOf(nodes[0]);
    }
  }

  lemma RegroupNames(a: seq<string>, b: seq<string>, c: seq<string>)
    ensures (a + b) + c == a + (b + c)
    ensures a == [] && b == [] ==> a + b == [] && a + c == c
  {
  }

  lemma {:induction false} KindsOfNodes(nodes: seq<Node>, rest: seq<Token>, depth: nat)
    ensures TokenKinds(TokensOf(nodes) + rest, depth)
         == (if depth == 0 then NamesOf(nodes) else []) + TokenKinds(rest, depth)
    decreases nodes, 0
  {
    hide TokenKinds, Tokens, NamesOf, TokensOf;
    NodesStep(nodes);
    if nodes == [] {
      assert TokensOf(nodes) + rest == rest;
      RegroupNames([], [], TokenKinds(rest, depth));
    } else {
      var head, tail := nodes[0], nodes[1..];
      Associates(Tokens(head), TokensOf(tail), rest);
      KindsOfNode(head, TokensOf(tail) + rest, depth);
      KindsOfNodes(tail, rest, depth);
      RegroupNames(if depth == 0 then NamesOf([head]) else [], if depth == 0 then NamesOf(tail) else [],
                   TokenKinds(rest, depth));
    }
  }

  /**
   Depth scanner correctness: on every printed element tree, however deeply nested, the scanner
   returns the sorted names of the root's own child elements and nothing else. Attributes may have any
   text without brackets.
   */
  lemma DirectChildrenOfTree(root: Node)
    requires root.Element? && AllBracketFree(Tokens(root))
    ensures DirectChildKinds(Print(Tokens(root))) == Sorted(NamesOf(root.children))
    ensures IsSorted(DirectChildKinds(Print(Tokens(root))))
    ensures multiset(DirectChildKinds(Print(Tokens(root)))) == multiset(NamesOf(root.children))
  {
    hide TokenKinds, DirectChildKinds, Print, Sorted, IsSorted, NamesOf, TokensOf;
    var open, close := Open(root.name, root.attributes), [Close(root.name)];
    var content := TokensOf(root.children) + close;
    assert Tokens(root) == [open] + content;
    KindsAfterOpening(open, content);
    KindsOfNodes(root.children, close, 0);
    KindsCons(Close(root.name), [], 0);
    assert close + [] == close;
    NoKindsOfNothing();
    assert TokenKinds(content, 0) == NamesOf(root.children) + [];
    assert NamesOf(root.children) + [] == NamesOf(root.children);
    SortedSorts(NamesOf(root.children));
    assert Tokens(root)[0] == open;
  }

  /** The scanner skips the enclosing tag and then reads at depth zero. */
  lemma KindsAfterOpening(open: Token, content: seq<Token>)
    requires open.Open? && AllBracketFree([open] + content)
    ensures DirectChildKinds(Print([open] + content)) == Sorted(TokenKinds(content, 0))
  {
    assert ([open] + content)[0] == open && ([open] + content)[1..] == content;
    PrintCons(open, content);
    TagEnds(open, Print(content));
    assert (Show(open) + Print(content))[|Show(open)|..] == Print(content);
    KindsOfPrint(content, 0);
  }
}
