/** Printing loses no tag: token lists with the same text have the same tags. */
module PrintedTags {
  import opened Sequences
  import opened Markup
  import opened ScannerTheorems
  import opened DocumentShape

  // ---------------------------------------------------------------- splitting equal texts

  lemma LengthToFirst(x: string, c: char, p: string, y: string, q: string)
    requires Lacks(x, c) && y + [c] + q == x + [c] + p
    ensures |x| <= |y|
  {
    assert (y + [c] + q)[|y|] == c;
    assert forall i :: 0 <= i < |x| ==> (x + [c] + p)[i] == x[i];
  }

  /** Two equal texts part equally at the first occurrence of a character. */
  lemma SplitAtFirst(x: string, c: char, p: string, y: string, q: string)
    requires Lacks(x, c) && Lacks(y, c) && x + [c] + p == y + [c] + q
    ensures x == y && p == q
  {
    LengthToFirst(x, c, p, y, q);
    LengthToFirst(y, c, q, x, p);
    SameParts(x, [c] + p, y, [c] + q) by {
      assert x + ([c] + p) == x + [c] + p && y + ([c] + q) == y + [c] + q;
    }
    SameParts([c], p, [c], q);
  }

  // ---------------------------------------------------------------- tags

  lemma NameParts(a: Attribute)
    requires PlainName(a.name) && PlainValue(a.value)
    ensures Lacks(a.name, '=') && Lacks(a.name, ' ') && Lacks(a.value, '\'')
  {
  }

  lemma ShowStep(a: Attribute, rest: seq<Attribute>)
    ensures ShowAttributes([a] + rest) == (" " + a.name) + "=" + ("'" + (a.value + "'" + ShowAttributes(rest)))
  {
    assert ([a] + rest)[1..] == rest;
  }

  lemma {:induction false} AttributesDetermined(a: seq<Attribute>, b: seq<Attribute>)
    requires PlainAttributes(a) && PlainAttributes(b) && ShowAttributes(a) == ShowAttributes(b)
    ensures a == b
  {
    LastOfAttributes(a);
    LastOfAttributes(b);
    assert ShowAttributes([]) == "";
    if a != [] && b != [] {
      var x, y, restA, restB := a[0], b[0], a[1..], b[1..];
      assert a == [x] + restA && b == [y] + restB;
      NameParts(x);
      NameParts(y);
      hide ShowAttributes, PlainName, PlainValue;
      ShowStep(x, restA);
      ShowStep(y, restB);
      var shownA, shownB := ShowAttributes(restA), ShowAttributes(restB);
      SplitAtFirst(" " + x.name, '=', "'" + (x.value + "'" + shownA), " " + y.name, "'" + (y.value + "'" + shownB));
      SameParts(" ", x.name, " ", y.name);
      SameParts("'", x.value + "'" + shownA, "'", y.value + "'" + shownB);
      SplitAtFirst(x.value, '\'', shownA, y.value, shownB);
      AttributesDetermined(restA, restB);
    }
  }

  /** A name and the attributes after it are told apart by the first space. */
  lemma NamedDetermined(name: string, a: seq<Attribute>, other: string, b: seq<Attribute>)
    requires PlainName(name) && PlainName(other) && PlainAttributes(a) && PlainAttributes(b)
    requires name + ShowAttributes(a) == other + ShowAttributes(b)
    ensures name == other && a == b
  {
    LastOfAttributes(a);
    LastOfAttributes(b);
    var shownA, shownB := ShowAttributes(a), ShowAttributes(b);
    assert a == [] ==> shownA == "";
    assert b == [] ==> shownB == "";
    assert Lacks(name, ' ') && Lacks(other, ' ');
    assert forall i :: 0 <= i < |other| ==> (other + shownB)[i] == other[i];
    assert forall i :: 0 <= i < |name| ==> (name + shownA)[i] == name[i];
    assert shownA != "" ==> (name + shownA)[|name|] == ' ';
    assert shownB != "" ==> (other + shownB)[|other|] == ' ';
    SameParts(name, shownA, other, shownB);
    AttributesDetermined(a, b);
  }

  lemma InsideEnds(t: Token)
    requires Plain(t) && !t.Chars?
    ensures Inside(t) != ""
    ensures t.Close? <==> Inside(t)[0] == '/'
    ensures t.Empty? ==> Inside(t)[|Inside(t)| - 1] == '/'
    ensures t.Open? ==> Inside(t)[|Inside(t)| - 1] != '/'
  {
    if t.Open? {
      PlainIsBracketFree(t);
      EndOfOpenTag(t);
    }
    if !t.Close? {
      assert Inside(t)[0] == t.name[0];
    }
  }

  lemma {:induction false} TagDetermined(t: Token, u: Token)
    requires Plain(t) && Plain(u) && !t.Chars? && !u.Chars? && Inside(t) == Inside(u)
    ensures t == u
  {
    InsideEnds(t);
    InsideEnds(u);
    match t
    case Close(name) =>
      SameParts("/", name, "/", u.name);
    case Open(name, attributes) =>
      NamedDetermined(name, attributes, u.name, u.attributes);
    case Empty(name, attributes) =>
      var shownT, shownU := name + ShowAttributes(attributes), u.name + ShowAttributes(u.attributes);
      assert shownT + "/" == Inside(t) && shownU + "/" == Inside(u);
      SameParts(shownT, "/", shownU, "/");
      NamedDetermined(name, attributes, u.name, u.attributes);
  }

  // ---------------------------------------------------------------- token lists

  /** The text before the first tag, and the tokens after it. */
  function LeadText(ts: seq<Token>): string {
    if ts == [] || !ts[0].Chars? then "" else ts[0].text + LeadText(ts[1..])
  }

  function AfterTag(ts: seq<Token>): seq<Token> {
    if ts == [] then [] else if ts[0].Chars? then AfterTag(ts[1..]) else ts[1..]
  }

  lemma {:induction false} PrintParts(ts: seq<Token>)
    requires AllPlain(ts)
    ensures Lacks(LeadText(ts), '<') && AllPlain(AfterTag(ts))
    ensures Tags(ts) == [] ==> Print(ts) == LeadText(ts)
    ensures Tags(ts) != [] ==>
              && |AfterTag(ts)| < |ts| && Plain(Tags(ts)[0]) && !Tags(ts)[0].Chars?
              && Tags(ts) == [Tags(ts)[0]] + Tags(AfterTag(ts))
              && Print(ts) == LeadText(ts) + (Show(Tags(ts)[0]) + Print(AfterTag(ts)))
  {
    hide Show;
    if ts != [] {
      var head, tail := ts[0], ts[1..];
      assert ts == [head] + tail;
      assert Plain(head);
      TagsCons(head, tail);
      if head.Chars? {
        PrintParts(tail);
        ShowChars(head.text);
        if Tags(tail) != [] {
          Associates(head.text, LeadText(tail), Show(Tags(tail)[0]) + Print(AfterTag(tail)));
        }
      } else {
        assert Print(ts) == Show(head) + Print(tail);
        assert "" + (Show(head) + Print(tail)) == Show(head) + Print(tail);
      }
    } else {
      NoTags();
    }
  }

  lemma BracketOfTag(t: Token)
    requires Plain(t)
    ensures multiset(Show(t))['<'] == if t.Chars? then 0 else 1
  {
    if t.Chars? {
      assert '<' !in t.text;
    } else {
      InsideIsPlain(t);
      assert '<' !in Inside(t);
    }
  }

  /** Nothing printed but a tag opens one: there are as many opening brackets as tags. */
  lemma {:induction false} BracketsAreTags(ts: seq<Token>)
    requires AllPlain(ts)
    ensures multiset(Print(ts))['<'] == |Tags(ts)|
  {
    if ts != [] {
      hide Show, Plain;
      var head, tail := ts[0], ts[1..];
      assert Plain(head) && AllPlain(tail);
      BracketOfTag(head);
      BracketsAreTags(tail);
    }
  }

  lemma ShowParts(t: Token, rest: string)
    requires Plain(t) && !t.Chars?
    ensures Show(t) + rest == "<" + (Inside(t) + ">" + rest)
    ensures Lacks(Inside(t), '>')
  {
    InsideIsPlain(t);
    hide Inside;
    assert "<" + Inside(t) + ">" + rest == "<" + (Inside(t) + ">" + rest);
  }

  lemma NoBracket(text: string, lead: string, rest: string)
    requires Lacks(text, '<')
    ensures text != lead + ("<" + rest)
  {
    assert (lead + ("<" + rest))[|lead|] == '<';
  }

  /** The same text has the same tags, in the same order. */
  lemma {:induction false} TagsDetermined(a: seq<Token>, b: seq<Token>)
    requires AllPlain(a) && AllPlain(b) && Print(a) == Print(b)
    ensures Tags(a) == Tags(b)
    decreases |a|
  {
    hide Print, Show, Tags, Inside, LeadText, AfterTag, Plain;
    PrintParts(a);
    PrintParts(b);
    if Tags(a) != [] {
      ShowParts(Tags(a)[0], Print(AfterTag(a)));
    }
    if Tags(b) != [] {
      ShowParts(Tags(b)[0], Print(AfterTag(b)));
    }
    if Tags(a) == [] {
      if Tags(b) != [] {
        NoBracket(LeadText(a), LeadText(b), Inside(Tags(b)[0]) + ">" + Print(AfterTag(b)));
      }
    } else if Tags(b) == [] {
      NoBracket(LeadText(b), LeadText(a), Inside(Tags(a)[0]) + ">" + Print(AfterTag(a)));
    } else {
      var t, u, restA, restB := Tags(a)[0], Tags(b)[0], AfterTag(a), AfterTag(b);
      SameTag(LeadText(a), Inside(t), Print(restA), LeadText(b), Inside(u), Print(restB));
      TagDetermined(t, u);
      TagsDetermined(restA, restB);
    }
  }

  lemma SameTag(lead: string, inside: string, rest: string, otherLead: string, otherInside: string, otherRest: string)
    requires Lacks(lead, '<') && Lacks(otherLead, '<') && Lacks(inside, '>') && Lacks(otherInside, '>')
    requires lead + ("<" + (inside + ">" + rest)) == otherLead + ("<" + (otherInside + ">" + otherRest))
    ensures inside == otherInside && rest == otherRest
  {
    var p, q := inside + ">" + rest, otherInside + ">" + otherRest;
    assert lead + "<" + p == lead + ("<" + p) && otherLead + "<" + q == otherLead + ("<" + q);
    SplitAtFirst(lead, '<', p, otherLead, q);
    SplitAtFirst(inside, '>', rest, otherInside, otherRest);
  }
}
