/**
 Printed markup as a list of tokens, and the one fact every textual scanner rests on: in such a
 text a pattern that begins with `<` is found exactly at the first tag that starts with it.
 */
module Markup {
  import opened Results
  import opened Sequences
  import opened Text

  datatype Attribute = Attribute(name: string, value: string)

  datatype Token =
    | Chars(text: string)
    | Open(name: string, attributes: seq<Attribute>)
    | Empty(name: string, attributes: seq<Attribute>)
    | Close(name: string)

  function ShowAttributes(attributes: seq<Attribute>): string {
    if attributes == [] then ""
    else " " + attributes[0].name + "='" + attributes[0].value + "'" + ShowAttributes(attributes[1..])
  }

  /** What follows the opening bracket of a tag, without the closing one. */
  function Inside(t: Token): string
    requires !t.Chars?
  {
    match t
    case Open(name, attributes) => name + ShowAttributes(attributes)
    case Empty(name, attributes) => name + ShowAttributes(attributes) + "/"
    case Close(name) => "/" + name
  }

  function Show(t: Token): string {
    if t.Chars? then t.text else "<" + Inside(t) + ">"
  }

  function Print(ts: seq<Token>): string {
    if ts == [] then "" else Show(ts[0]) + Print(ts[1..])
  }

  lemma ShowPrepended(a: Attribute, rest: seq<Attribute>)
    ensures ShowAttributes([a] + rest) == " " + a.name + "='" + a.value + "'" + ShowAttributes(rest)
  {
    assert ([a] + rest)[1..] == rest;
  }

  lemma NothingShown()
    ensures ShowAttributes([]) == ""
  {
  }

  // ---------------------------------------------------------------- the printed fragment

  predicate Lacks(s: string, c: char) {
    forall i :: 0 <= i < |s| ==> s[i] != c
  }

  /** Element and attribute names: no markup characters, quotes, equals signs or white space. */
  predicate PlainName(s: string) {
    s != "" && forall i :: 0 <= i < |s| ==>
      && s[i] != '<' && s[i] != '>' && s[i] != '/' && s[i] != '\'' && s[i] != '"'
      && s[i] != '=' && s[i] != '?' && s[i] != '!' && !IsWhitespace(s[i])
  }

  /** Attribute values: no markup characters and no quotes. */
  predicate PlainValue(s: string) {
    Lacks(s, '<') && Lacks(s, '>') && Lacks(s, '\'') && Lacks(s, '"')
  }

  predicate PlainAttributes(attributes: seq<Attribute>) {
    forall i :: 0 <= i < |attributes| ==> PlainName(attributes[i].name) && PlainValue(attributes[i].value)
  }

  predicate Plain(t: Token) {
    match t
    case Chars(text) => Lacks(text, '<')
    case Open(name, attributes) => PlainName(name) && PlainAttributes(attributes)
    case Empty(name, attributes) => PlainName(name) && PlainAttributes(attributes)
    case Close(name) => PlainName(name)
  }

  predicate AllPlain(ts: seq<Token>) {
    forall i :: 0 <= i < |ts| ==> Plain(ts[i])
  }

  // ---------------------------------------------------------------- printing

  lemma PrintCons(head: Token, tail: seq<Token>)
    ensures Print([head] + tail) == Show(head) + Print(tail)
  {
    assert ([head] + tail)[1..] == tail;
  }

  lemma {:induction false} PrintAppend(a: seq<Token>, b: seq<Token>)
    ensures Print(a + b) == Print(a) + Print(b)
  {
    if a == [] {
      assert a + b == b;
    } else {
      var head, tail := a[0], a[1..];
      calc {
        Print(a + b);
        { assert a + b == [head] + (tail + b); }
        Print([head] + (tail + b));
        { PrintCons(head, tail + b); }
        Show(head) + Print(tail + b);
        { PrintAppend(tail, b); }
        Show(head) + (Print(tail) + Print(b));
        { Associates(Show(head), Print(tail), Print(b)); }
        (Show(head) + Print(tail)) + Print(b);
        { PrintCons(head, tail); assert [head] + tail == a; }
        Print(a) + Print(b);
      }
    }
  }

  lemma {:induction false} AttributesArePlain(attributes: seq<Attribute>)
    requires PlainAttributes(attributes)
    ensures Lacks(ShowAttributes(attributes), '<') && Lacks(ShowAttributes(attributes), '>')
    ensures Lacks(ShowAttributes(attributes), '"')
  {
    if attributes != [] {
      AttributesArePlain(attributes[1..]);
      assert PlainName(attributes[0].name) && PlainValue(attributes[0].value);
    }
  }

  /** A tag has no bracket between its own two. */
  lemma InsideIsPlain(t: Token)
    requires Plain(t) && !t.Chars?
    ensures Lacks(Inside(t), '<') && Lacks(Inside(t), '>') && Lacks(Inside(t), '"')
    ensures Inside(t) != ""
  {
    match t
    case Open(_, attributes) => AttributesArePlain(attributes);
    case Empty(_, attributes) => AttributesArePlain(attributes);
    case _ =>
  }

  // ---------------------------------------------------------------- tags with any quotes

  /** No bracket but a tag's own two; attribute values may have quotes of either kind. */
  predicate BracketFree(t: Token) {
    match t
    case Chars(text) => Lacks(text, '<')
    case Open(name, attributes) => PlainName(name) && BracketFreeAttributes(attributes)
    case Empty(name, attributes) => PlainName(name) && BracketFreeAttributes(attributes)
    case Close(name) => PlainName(name)
  }

  predicate BracketFreeAttributes(attributes: seq<Attribute>) {
    forall i :: 0 <= i < |attributes| ==>
      && Lacks(attributes[i].name, '<') && Lacks(attributes[i].name, '>')
      && Lacks(attributes[i].value, '<') && Lacks(attributes[i].value, '>')
  }

  predicate AllBracketFree(ts: seq<Token>) {
    forall i :: 0 <= i < |ts| ==> BracketFree(ts[i])
  }

  lemma PlainIsBracketFree(t: Token)
    requires Plain(t)
    ensures BracketFree(t)
  {
  }

  lemma AllPlainIsBracketFree(ts: seq<Token>)
    requires AllPlain(ts)
    ensures AllBracketFree(ts)
  {
    hide Plain, BracketFree;
    forall i | 0 <= i < |ts| ensures BracketFree(ts[i]) {
      PlainIsBracketFree(ts[i]);
    }
  }

  lemma {:induction false} AttributesHaveNoBracket(attributes: seq<Attribute>)
    requires BracketFreeAttributes(attributes)
    ensures Lacks(ShowAttributes(attributes), '<') && Lacks(ShowAttributes(attributes), '>')
  {
    if attributes != [] {
      AttributesHaveNoBracket(attributes[1..]);
    }
  }

  lemma InsideHasNoBracket(t: Token)
    requires BracketFree(t) && !t.Chars?
    ensures Lacks(Inside(t), '<') && Lacks(Inside(t), '>') && Inside(t) != ""
  {
    match t
    case Open(_, attributes) => AttributesHaveNoBracket(attributes);
    case Empty(_, attributes) => AttributesHaveNoBracket(attributes);
    case _ =>
  }

  // ---------------------------------------------------------------- finding tags

  /** A pattern after `<`: free of `<`, and of `>` except as its last character. */
  predicate TagPattern(q: string) {
    Lacks(q, '<') && forall i :: 0 <= i < |q| - 1 ==> q[i] != '>'
  }

  predicate StartsTag(t: Token, q: string) {
    !t.Chars? && StartsWith(Inside(t) + ">", q)
  }

  /** The tokens from the first tag starting with the pattern on. */
  function DropTo(ts: seq<Token>, q: string): seq<Token> {
    if ts == [] || StartsTag(ts[0], q) then ts else DropTo(ts[1..], q)
  }

  function TakeTo(ts: seq<Token>, q: string): seq<Token> {
    if ts == [] || StartsTag(ts[0], q) then [] else [ts[0]] + TakeTo(ts[1..], q)
  }

  lemma {:induction false} TakeAndDrop(ts: seq<Token>, q: string)
    ensures TakeTo(ts, q) + DropTo(ts, q) == ts
    ensures DropTo(ts, q) != [] ==> StartsTag(DropTo(ts, q)[0], q)
    ensures |DropTo(ts, q)| <= |ts|
    ensures AllPlain(ts) ==> AllPlain(TakeTo(ts, q)) && AllPlain(DropTo(ts, q))
  {
    hide StartsTag, Plain;
    if ts != [] && !StartsTag(ts[0], q) {
      TakeAndDrop(ts[1..], q);
      var taken, left := TakeTo(ts[1..], q), DropTo(ts[1..], q);
      assert [ts[0]] + taken + left == [ts[0]] + (taken + left) == ts;
    }
  }

  lemma FindInNothing(p: string)
    requires p != ""
    ensures Find("", p) == None
  {
    FindNothing("", p);
  }

  lemma {:induction false} FindTag(ts: seq<Token>, q: string)
    requires AllPlain(ts) && TagPattern(q)
    ensures Find(Print(ts), "<" + q)
         == if DropTo(ts, q) == [] then None else Some(|Print(TakeTo(ts, q))|)
  {
    hide Find, Show, StartsTag, Plain, TagPattern, OccursAt;
    var p := "<" + q;
    if ts == [] {
      FindInNothing(p);
    } else {
      var t, rest := ts[0], Print(ts[1..]);
      assert Plain(t);
      if StartsTag(t, q) {
        StartsHere(t, rest, q);
        FindAt(Show(t) + rest, p, 0);
      } else {
        NotInToken(t, rest, q);
        FindSkips(Show(t), rest, p);
        FindTag(ts[1..], q);
        TakeStep(ts, q);
      }
    }
  }

  lemma TakeStep(ts: seq<Token>, q: string)
    requires ts != [] && !StartsTag(ts[0], q)
    ensures DropTo(ts, q) == DropTo(ts[1..], q)
    ensures |Print(TakeTo(ts, q))| == |Show(ts[0])| + |Print(TakeTo(ts[1..], q))|
  {
    hide Show, StartsTag;
    PrintCons(ts[0], TakeTo(ts[1..], q));
  }

  lemma StartsHere(t: Token, rest: string, q: string)
    requires StartsTag(t, q)
    ensures OccursAt(Show(t) + rest, "<" + q, 0)
  {
    var s := Show(t) + rest;
    assert s == "<" + (Inside(t) + ">") + rest;
    assert s[..|q| + 1] == "<" + (Inside(t) + ">")[..|q|];
  }

  lemma NotInToken(t: Token, rest: string, q: string)
    requires Plain(t) && TagPattern(q) && !StartsTag(t, q)
    ensures forall j :: 0 <= j < |Show(t)| ==> !OccursAt(Show(t) + rest, "<" + q, j)
  {
    var s, p := Show(t) + rest, "<" + q;
    if t.Chars? {
      NoStart(t.text, rest, p);
    } else {
      InsideIsPlain(t);
      forall j | 0 <= j < |Show(t)| ensures !OccursAt(s, p, j) {
        if j == 0 {
          PatternWithinTag(t, rest, q);
        } else {
          assert s[j] == (Inside(t) + ">")[j - 1];
          WrongCharacter(s, p, j, 0);
        }
      }
    }
  }

  /** A pattern occurring at a tag ends within it, since `>` can only be the pattern's end. */
  lemma PatternWithin(tag: string, rest: string, q: string)
    requires tag != "" && tag[|tag| - 1] == '>' && TagPattern(q) && !StartsWith(tag, q)
    ensures !OccursAt("<" + tag + rest, "<" + q, 0)
  {
    var s, p := "<" + tag + rest, "<" + q;
    assert forall i :: 0 <= i < |tag| ==> s[i + 1] == tag[i];
    if |q| > |tag| {
      WrongCharacter(s, p, 0, |tag|);
    } else {
      var i :| 0 <= i < |q| && tag[i] != q[i];
      WrongCharacter(s, p, 0, i + 1);
    }
  }

  lemma PatternWithinTag(t: Token, rest: string, q: string)
    requires Plain(t) && !t.Chars? && TagPattern(q) && !StartsTag(t, q)
    ensures !OccursAt(Show(t) + rest, "<" + q, 0)
  {
    hide Inside, Plain, TagPattern, OccursAt, StartsWith;
    PatternWithin(Inside(t) + ">", rest, q);
    assert "<" + (Inside(t) + ">") == Show(t);
  }

  /** The text up to a found tag and from it on, in terms of tokens. */
  lemma FoundTag(ts: seq<Token>, q: string)
    requires AllPlain(ts) && TagPattern(q) && DropTo(ts, q) != []
    ensures var at := |Print(TakeTo(ts, q))|;
            && Find(Print(ts), "<" + q) == Some(at)
            && at <= |Print(ts)|
            && Print(ts)[..at] == Print(TakeTo(ts, q))
            && Print(ts)[at..] == Print(DropTo(ts, q))
  {
    FindTag(ts, q);
    TakeAndDrop(ts, q);
    PrintAppend(TakeTo(ts, q), DropTo(ts, q));
  }

  /** The first closing bracket of a text that starts with a tag is that tag's own. */
  lemma TagEnds(t: Token, rest: string)
    requires BracketFree(t) && !t.Chars?
    ensures Find(Show(t) + rest, ">") == Some(|Show(t)| - 1)
  {
    var s := Show(t) + rest;
    InsideHasNoBracket(t);
    assert OccursAt(s, ">", |Show(t)| - 1);
    forall j | 0 <= j < |Show(t)| - 1 ensures !OccursAt(s, ">", j) {
      assert s[j] == ("<" + Inside(t))[j];
      WrongCharacter(s, ">", j, 0);
    }
    FindAt(s, ">", |Show(t)| - 1);
  }

  // ---------------------------------------------------------------- composing documents

  /** No tag of this part starts with the pattern. */
  predicate NoTag(ts: seq<Token>, q: string) {
    forall i :: 0 <= i < |ts| ==> !StartsTag(ts[i], q)
  }

  lemma {:induction false} DropPast(a: seq<Token>, b: seq<Token>, q: string)
    requires NoTag(a, q)
    ensures DropTo(a + b, q) == DropTo(b, q) && TakeTo(a + b, q) == a + TakeTo(b, q)
  {
    hide StartsTag;
    if a == [] {
      assert a + b == b && a + TakeTo(b, q) == TakeTo(b, q);
    } else {
      var head, tail := a[0], a[1..];
      assert (a + b)[0] == head && (a + b)[1..] == tail + b;
      assert !StartsTag(head, q);
      DropPast(tail, b, q);
      assert a + TakeTo(b, q) == [head] + (tail + TakeTo(b, q));
    }
  }
}
