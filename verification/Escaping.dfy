/** Escaping of text and attribute values by successive replacements. */
module Escaping {
  import opened Text
  import opened Markup

  function ReplaceChar(s: string, c: char, entity: string): string {
    if s == "" then "" else (if s[0] == c then entity else [s[0]]) + ReplaceChar(s[1..], c, entity)
  }

  /** Five passes in this order: the ampersand first, so that later entities are not escaped again. */
  function EscapeXml(value: string): string {
    var ampersands := ReplaceChar(value, '&', "&amp;");
    var less := ReplaceChar(ampersands, '<', "&lt;");
    var greater := ReplaceChar(less, '>', "&gt;");
    var quotes := ReplaceChar(greater, '"', "&quot;");
    ReplaceChar(quotes, '\'', "&apos;")
  }

  function Entity(c: char): string {
    match c
    case '&' => "&amp;"
    case '<' => "&lt;"
    case '>' => "&gt;"
    case '"' => "&quot;"
    case '\'' => "&apos;"
    case _ => [c]
  }

  function MapEntities(s: string): string {
    if s == "" then "" else Entity(s[0]) + MapEntities(s[1..])
  }

  predicate Special(c: char) {
    c == '&' || c == '<' || c == '>' || c == '"' || c == '\''
  }

  /** Text without characters that are special in markup. */
  predicate Unspecial(s: string) {
    forall i :: 0 <= i < |s| ==> !Special(s[i])
  }

  /** Reads a predefined entity (section 4.6 of XML 1.0) or a single character. */
  function DecodeFirst(s: string): (string, nat)
    requires s != ""
  {
    if StartsWith(s, "&amp;") then ("&", 5)
    else if StartsWith(s, "&lt;") then ("<", 4)
    else if StartsWith(s, "&gt;") then (">", 4)
    else if StartsWith(s, "&quot;") then ("\"", 6)
    else if StartsWith(s, "&apos;") then ("'", 6)
    else ([s[0]], 1)
  }

  function DecodeXml(s: string): string {
    if s == "" then ""
    else DecodeFirst(s).0 + DecodeXml(s[DecodeFirst(s).1..])
  }

  lemma {:induction false} ReplaceAppend(a: string, b: string, c: char, entity: string)
    ensures ReplaceChar(a + b, c, entity) == ReplaceChar(a, c, entity) + ReplaceChar(b, c, entity)
  {
    if a == "" {
      assert a + b == b;
    } else {
      assert (a + b)[0] == a[0] && (a + b)[1..] == a[1..] + b;
      ReplaceAppend(a[1..], b, c, entity);
    }
  }

  lemma {:induction false} ReplaceNothing(s: string, c: char, entity: string)
    requires Lacks(s, c)
    ensures ReplaceChar(s, c, entity) == s
  {
    if s != "" {
      ReplaceNothing(s[1..], c, entity);
    }
  }

  lemma ReplaceOne(c: char, d: char, entity: string)
    ensures ReplaceChar([c], d, entity) == if c == d then entity else [c]
  {
    assert [c][1..] == "";
  }

  /** Each character is escaped on its own. */
  lemma EscapeAppend(a: string, b: string)
    ensures EscapeXml(a + b) == EscapeXml(a) + EscapeXml(b)
  {
    hide ReplaceChar;
    ReplaceAppend(a, b, '&', "&amp;");
    var a1, b1 := ReplaceChar(a, '&', "&amp;"), ReplaceChar(b, '&', "&amp;");
    ReplaceAppend(a1, b1, '<', "&lt;");
    var a2, b2 := ReplaceChar(a1, '<', "&lt;"), ReplaceChar(b1, '<', "&lt;");
    ReplaceAppend(a2, b2, '>', "&gt;");
    var a3, b3 := ReplaceChar(a2, '>', "&gt;"), ReplaceChar(b2, '>', "&gt;");
    ReplaceAppend(a3, b3, '"', "&quot;");
    ReplaceAppend(ReplaceChar(a3, '"', "&quot;"), ReplaceChar(b3, '"', "&quot;"), '\'', "&apos;");
  }

  lemma EscapeOne(c: char)
    ensures EscapeXml([c]) == Entity(c)
  {
    hide ReplaceChar;
    ReplaceOne(c, '&', "&amp;");
    ReplaceOne(c, '<', "&lt;");
    ReplaceOne(c, '>', "&gt;");
    ReplaceOne(c, '"', "&quot;");
    ReplaceOne(c, '\'', "&apos;");
    var e := Entity(c);
    if Special(c) {
      ReplaceNothing(e, '<', "&lt;");
      ReplaceNothing(e, '>', "&gt;");
      ReplaceNothing(e, '"', "&quot;");
      ReplaceNothing(e, '\'', "&apos;");
    }
  }

  /** The five passes together map every character to its entity, or leave it. */
  lemma {:induction false} EscapeIsOnePass(s: string)
    ensures EscapeXml(s) == MapEntities(s)
  {
    if s != "" {
      hide EscapeXml;
      assert s == [s[0]] + s[1..];
      EscapeAppend([s[0]], s[1..]);
      EscapeOne(s[0]);
      EscapeIsOnePass(s[1..]);
    }
  }

  lemma {:induction false} MappedIsPlain(s: string)
    ensures PlainValue(MapEntities(s))
  {
    if s != "" {
      MappedIsPlain(s[1..]);
      EntityIsPlain(s[0]);
    }
  }

  lemma EntityIsPlain(c: char)
    ensures PlainValue(Entity(c)) && Entity(c) != ""
  {
  }

  /** Escaped text can neither open nor close a tag, nor end an attribute value. */
  lemma EscapedIsPlain(s: string)
    ensures PlainValue(EscapeXml(s))
  {
    EscapeIsOnePass(s);
    MappedIsPlain(s);
  }

  lemma DecodeEntity(c: char, rest: string)
    ensures DecodeFirst(Entity(c) + rest) == ([c], |Entity(c)|)
  {
    var s := Entity(c) + rest;
    assert Special(c) ==> s[..|Entity(c)|] == Entity(c);
    match c
    case '&' =>
    case '<' =>
      assert s[1] == 'l';
      assert !StartsWith(s, "&amp;") by { assert s[1] != "&amp;"[1]; }
    case '>' =>
      assert s[1] == 'g';
      assert !StartsWith(s, "&amp;") by { assert s[1] != "&amp;"[1]; }
      assert !StartsWith(s, "&lt;") by { assert s[1] != "&lt;"[1]; }
    case '"' =>
      assert s[1] == 'q';
      assert !StartsWith(s, "&amp;") by { assert s[1] != "&amp;"[1]; }
      assert !StartsWith(s, "&lt;") by { assert s[1] != "&lt;"[1]; }
      assert !StartsWith(s, "&gt;") by { assert s[1] != "&gt;"[1]; }
    case '\'' =>
      assert s[2] == 'p';
      assert !StartsWith(s, "&amp;") by { assert s[2] != "&amp;"[2]; }
      assert s[1] == 'a';
      assert !StartsWith(s, "&lt;") by { assert s[1] != "&lt;"[1]; }
      assert !StartsWith(s, "&gt;") by { assert s[1] != "&gt;"[1]; }
      assert !StartsWith(s, "&quot;") by { assert s[1] != "&quot;"[1]; }
    case _ =>
      assert s[0] == c;
  }

  /** Decoding undoes escaping, for every text. */
  lemma {:induction false} DecodeEscaped(s: string)
    ensures DecodeXml(EscapeXml(s)) == s
  {
    EscapeIsOnePass(s);
    if s != "" {
      hide EscapeXml, DecodeFirst;
      var rest := MapEntities(s[1..]);
      DecodeEntity(s[0], rest);
      EntityIsPlain(s[0]);
      assert (Entity(s[0]) + rest)[|Entity(s[0])|..] == rest;
      EscapeIsOnePass(s[1..]);
      DecodeEscaped(s[1..]);
      assert s == [s[0]] + s[1..];
    }
  }

  /** Exactly the texts without special characters are written as they are. */
  lemma {:induction false} EscapeChangesNothingIff(s: string)
    ensures EscapeXml(s) == s <==> Unspecial(s)
  {
    EscapeIsOnePass(s);
    MappedLength(s);
    if Unspecial(s) {
      MappedUnspecial(s);
    }
  }

  lemma {:induction false} MappedLength(s: string)
    ensures |MapEntities(s)| >= |s|
    ensures |MapEntities(s)| == |s| ==> Unspecial(s)
  {
    if s != "" {
      MappedLength(s[1..]);
    }
  }

  lemma {:induction false} MappedUnspecial(s: string)
    requires Unspecial(s)
    ensures MapEntities(s) == s
  {
    if s != "" {
      MappedUnspecial(s[1..]);
    }
  }
}
