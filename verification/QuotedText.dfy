/**
 A text, and its escaped form between two quotes. An occurrence of the text that is not the escaped one
 can reach across the quotes when the text has quotes of its own; exchanging it never gives the
 escaped form of what it is exchanged for.
 */
module QuotedText {
  import opened Markup
  import opened Escaping

  /** Text between quotes: what stands in between has none, so no other occurrence can reach into it. */
  predicate QuotedBetween(before: string, after: string) {
    before != "" && before[|before| - 1] == '\'' && after != "" && after[0] == '\''
  }

  // ---------------------------------------------------------------- shifting a piece of text

  /** Text that commutes with another has no characters that the other lacks. */
  lemma {:induction false} CommutingLacks(z: string, w: string, c: char)
    requires z + w == w + z && w != "" && Lacks(w, c)
    ensures Lacks(z, c)
    decreases |z|
  {
    if |z| <= |w| {
      assert z == (z + w)[..|z|] == w[..|z|];
    } else {
      var rest := z[|w|..];
      assert w == (w + z)[..|w|] == z[..|w|];
      assert z == w + rest;
      assert w + (rest + w) == z + w && w + z == w + (w + rest);
      SameStarts(w, rest + w, w + rest);
      CommutingLacks(rest, w, c);
    }
  }

  lemma SameStarts(before: string, a: string, b: string)
    requires before + a == before + b
    ensures a == b
  {
    assert a == (before + a)[|before|..] && b == (before + b)[|before|..];
  }

  lemma SameEnds(a: string, b: string, after: string)
    requires a + after == b + after
    ensures a == b
  {
    assert |a| == |b|;
    assert a == (a + after)[..|a|] && b == (b + after)[..|b|];
  }

  /** A piece that can stand at two places of a text commutes with what lies between them. */
  lemma TwoPlaces(front: string, back: string, longer: string, shorter: string, w: string)
    requires |front| <= |longer| && front + back == longer + shorter
    requires front + w + back == longer + w + shorter
    ensures longer == front + longer[|front|..] && back == longer[|front|..] + shorter
    ensures longer[|front|..] + w == w + longer[|front|..]
  {
    var z := longer[|front|..];
    assert front == (front + back)[..|front|] == (longer + shorter)[..|front|] == longer[..|front|];
    assert longer == front + z;
    assert front + (z + shorter) == longer + shorter;
    SameStarts(front, back, z + shorter);
    assert front + (w + z + shorter) == front + w + back;
    assert front + (z + w + shorter) == longer + w + shorter;
    SameStarts(front, w + z + shorter, z + w + shorter);
    SameEnds(w + z, z + w, shorter);
  }

  // ---------------------------------------------------------------- counting what is escaped

  lemma AmpersandsOfEntity(c: char)
    ensures multiset(Entity(c))['&'] >= multiset([c])['&'] + multiset([c])['\'']
  {
    var entity := Entity(c);
    assert c == '&' || c == '\'' ==> entity != "" && entity[0] == '&';
    hide Entity;
    if c == '&' || c == '\'' {
      assert entity[0] in entity;
    } else {
      assert '&' !in [c] && '\'' !in [c];
    }
  }

  /** Escaped text has an ampersand for every ampersand and every quote. */
  lemma {:induction false} AmpersandsOfMapped(s: string)
    ensures multiset(MapEntities(s))['&'] >= multiset(s)['&'] + multiset(s)['\'']
  {
    if s != "" {
      var first, rest, entity, mapped := [s[0]], s[1..], Entity(s[0]), MapEntities(s[1..]);
      assert s == first + rest && MapEntities(s) == entity + mapped;
      hide Entity, MapEntities;
      AmpersandsOfMapped(rest);
      AmpersandsOfEntity(s[0]);
      Counted(first, rest, '&');
      Counted(first, rest, '\'');
      Counted(entity, mapped, '&');
    }
  }

  lemma Counted(a: string, b: string, c: char)
    ensures multiset(a + b)[c] == multiset(a)[c] + multiset(b)[c]
  {
  }

  lemma QuotesAddAmpersands(p: string)
    requires !Lacks(p, '\'')
    ensures multiset(EscapeXml(p))['&'] > multiset(p)['&']
  {
    hide EscapeXml, MapEntities;
    EscapeIsOnePass(p);
    AmpersandsOfMapped(p);
    var i :| 0 <= i < |p| && p[i] == '\'';
    assert p[i] in p;
  }

  /** Where the escaped form has all its ampersands in a part of it, that part is in no way an end of the text. */
  lemma NoEndOfText(p: string, u: string, z: string)
    requires !Lacks(p, '\'') && Lacks(u, '\'') && Lacks(z, '&')
    requires EscapeXml(p) == u + z || EscapeXml(p) == z + u
    ensures |u| < |p| ==> p[|p| - |u|..] != u && p[..|u|] != u
    ensures |u| >= |p| ==> p != u[|u| - |p|..] && p != u[..|p|]
  {
    hide EscapeXml;
    QuotesAddAmpersands(p);
    assert '&' !in z;
    Counted(u, z, '&');
    Counted(z, u, '&');
    if |u| < |p| {
      assert p == p[..|p| - |u|] + p[|p| - |u|..] && p == p[..|u|] + p[|u|..];
      Counted(p[..|p| - |u|], p[|p| - |u|..], '&');
      Counted(p[..|u|], p[|u|..], '&');
    }
  }

  // ---------------------------------------------------------------- an extended text

  /** The piece by which a text is extended without adding more than itself has nothing to escape. */
  lemma AddsNothing(w: string)
    requires |EscapeXml(w)| == |w|
    ensures EscapeXml(w) == w && Lacks(w, '\'') && Lacks(w, '&')
  {
    hide EscapeXml, MapEntities;
    EscapeIsOnePass(w);
    MappedLength(w);
    EscapeChangesNothingIff(w);
  }

  lemma SameFirst(whole: string, piece: string, rest: string)
    requires whole == piece + rest && piece != ""
    ensures whole[0] == piece[0]
  {
  }

  /** A piece at the end that is longer than the text between the quotes has the quote before it. */
  lemma PieceReaches(before: string, text: string, front: string, z: string)
    requires before != "" && before[|before| - 1] == '\'' && before + text == front + z
    ensures |z| > |text| ==> !Lacks(z, '\'')
  {
    if |z| > |text| {
      assert z[|z| - |text| - 1] == (front + z)[|before| - 1] == (before + text)[|before| - 1];
    }
  }

  lemma EndingPiece(before: string, text: string, front: string, z: string)
    requires before + text == front + z && |z| <= |text|
    ensures text == text[..|text| - |z|] + z && before + text[..|text| - |z|] == front
  {
    var whole := before + text;
    assert z == whole[|front|..] == text[|text| - |z|..];
    assert front == whole[..|front|] == before + text[..|text| - |z|];
  }

  lemma SameEnding(before: string, u: string, left: string, p: string)
    requires before + u == left + p
    ensures |u| < |p| ==> p[|p| - |u|..] == u
    ensures |u| >= |p| ==> u[|u| - |p|..] == p
  {
    var whole := before + u;
    assert |u| < |p| ==> p[|p| - |u|..] == whole[|before|..];
    assert |u| >= |p| ==> u[|u| - |p|..] == whole[|left|..];
  }

  lemma PieceReachesOn(text: string, after: string, z: string, rest: string)
    requires after != "" && after[0] == '\'' && text + after == z + rest
    ensures |z| > |text| ==> !Lacks(z, '\'')
  {
    if |z| > |text| {
      assert z[|text|] == (z + rest)[|text|] == (text + after)[|text|];
    }
  }

  lemma StartingPiece(text: string, after: string, z: string, rest: string)
    requires text + after == z + rest && |z| <= |text|
    ensures text == z + text[|z|..] && text[|z|..] + after == rest
  {
    var whole := text + after;
    assert z == whole[..|z|] == text[..|z|];
    assert rest == whole[|z|..] == text[|z|..] + after;
  }

  lemma SameStarting(u: string, after: string, p: string, right: string)
    requires u + after == p + right
    ensures |u| < |p| ==> p[..|u|] == u
    ensures |u| >= |p| ==> u[..|p|] == p
  {
    var whole := u + after;
    assert |u| < |p| ==> p[..|u|] == whole[..|u|];
    assert |u| >= |p| ==> u[..|p|] == whole[..|p|];
  }

  lemma ExtendedAtEnd(before: string, p: string, w: string, after: string, left: string, right: string)
    requires QuotedBetween(before, after) && w != "" && !Lacks(p + w, '\'')
    requires left + p + right == before + EscapeXml(p) + after
    ensures left + (p + w) + right != before + EscapeXml(p + w) + after
  {
    hide EscapeXml, QuotedBetween;
    EscapeAppend(p, w);
    if left + (p + w) + right == before + EscapeXml(p + w) + after {
      AddsNothing(w);
      EscapedIsPlain(p);
      var front, longer := left + p, before + EscapeXml(p);
      assert front + w + right == left + (p + w) + right;
      assert longer + w + after == before + EscapeXml(p + w) + after;
      EndMeetsQuote(before, p, w, after, left, right);
    }
  }

  lemma EndMeetsQuote(before: string, p: string, w: string, after: string, left: string, right: string)
    requires QuotedBetween(before, after) && w != "" && Lacks(w, '\'') && Lacks(w, '&') && !Lacks(p, '\'')
    requires left + p + right == before + EscapeXml(p) + after && Lacks(EscapeXml(p), '\'')
    ensures left + p + w + right != before + EscapeXml(p) + w + after
  {
    hide EscapeXml;
    var text, front, longer := EscapeXml(p), left + p, before + EscapeXml(p);
    if front + w + right == longer + w + after {
      if |front| > |longer| {
        TwoPlaces(longer, after, front, right, w);
        SameFirst(after, front[|longer|..], right);
        CommutingLacks(front[|longer|..], w, '\'');
      } else {
        TwoPlaces(front, right, longer, after, w);
        var z := longer[|front|..];
        CommutingLacks(z, w, '\'');
        CommutingLacks(z, w, '&');
        PieceReaches(before, text, front, z);
        var u := text[..|text| - |z|];
        EndingPiece(before, text, front, z);
        SameEnding(before, u, left, p);
        NoEndOfText(p, u, z);
      }
    }
  }

  lemma ExtendedAtFront(before: string, p: string, w: string, after: string, left: string, right: string)
    requires QuotedBetween(before, after) && w != "" && !Lacks(w + p, '\'')
    requires left + p + right == before + EscapeXml(p) + after
    ensures left + (w + p) + right != before + EscapeXml(w + p) + after
  {
    hide EscapeXml, QuotedBetween;
    EscapeAppend(w, p);
    if left + (w + p) + right == before + EscapeXml(w + p) + after {
      AddsNothing(w);
      EscapedIsPlain(p);
      assert left + w + (p + right) == left + (w + p) + right;
      assert before + w + (EscapeXml(p) + after) == before + EscapeXml(w + p) + after;
      assert left + (p + right) == left + p + right;
      assert before + (EscapeXml(p) + after) == before + EscapeXml(p) + after;
      FrontMeetsQuote(before, p, w, after, left, right);
    }
  }

  lemma FrontMeetsQuote(before: string, p: string, w: string, after: string, left: string, right: string)
    requires QuotedBetween(before, after) && w != "" && Lacks(w, '\'') && Lacks(w, '&') && !Lacks(p, '\'')
    requires left + (p + right) == before + (EscapeXml(p) + after) && Lacks(EscapeXml(p), '\'')
    ensures left + w + (p + right) != before + w + (EscapeXml(p) + after)
  {
    hide EscapeXml;
    var text, rest, tail := EscapeXml(p), p + right, EscapeXml(p) + after;
    if left + w + rest == before + w + tail {
      if |left| < |before| {
        TwoPlaces(left, rest, before, tail, w);
        var z := before[|left|..];
        assert z[|z| - 1] == before[|before| - 1];
        CommutingLacks(z, w, '\'');
      } else {
        TwoPlaces(before, tail, left, rest, w);
        var z := left[|before|..];
        CommutingLacks(z, w, '\'');
        CommutingLacks(z, w, '&');
        PieceReachesOn(text, after, z, rest);
        var u := text[|z|..];
        StartingPiece(text, after, z, rest);
        SameStarting(u, after, p, right);
        NoEndOfText(p, u, z);
      }
    }
  }

  // ---------------------------------------------------------------- texts that differ

  /** How far two texts agree from the front. */
  function Agreeing(a: string, b: string): nat {
    if a == "" || b == "" || a[0] != b[0] then 0 else 1 + Agreeing(a[1..], b[1..])
  }

  lemma {:induction false} AgreeingIsLongest(a: string, b: string)
    ensures var n := Agreeing(a, b);
            n <= |a| && n <= |b| && a[..n] == b[..n] && (n < |a| && n < |b| ==> a[n] != b[n])
  {
    if a != "" && b != "" && a[0] == b[0] {
      AgreeingIsLongest(a[1..], b[1..]);
      var n := Agreeing(a[1..], b[1..]);
      assert a[..1 + n] == [a[0]] + a[1..][..n] && b[..1 + n] == [b[0]] + b[1..][..n];
    }
  }

  predicate AlikeAt(a: string, b: string, k: nat) {
    k < |a| && k < |b| && a[|a| - 1 - k] == b[|b| - 1 - k]
  }

  /** How far two texts agree from the end. */
  lemma AgreeingBack(a: string, b: string) returns (n: nat)
    ensures n <= |a| && n <= |b| && a[|a| - n..] == b[|b| - n..]
    ensures n < |a| && n < |b| ==> a[|a| - 1 - n] != b[|b| - 1 - n]
  {
    n := 0;
    while AlikeAt(a, b, n)
      invariant n <= |a| && n <= |b|
      invariant forall k :: 0 <= k < n ==> AlikeAt(a, b, k)
      decreases |a| - n
    {
      n := n + 1;
    }
    SameBack(a, b, n);
  }

  lemma SameBack(a: string, b: string, n: nat)
    requires n <= |a| && n <= |b| && forall k :: 0 <= k < n ==> AlikeAt(a, b, k)
    ensures a[|a| - n..] == b[|b| - n..]
  {
    var x, y := a[|a| - n..], b[|b| - n..];
    forall i | 0 <= i < n ensures x[i] == y[i] {
      var k := n - 1 - i;
      assert AlikeAt(a, b, k) && x[i] == a[|a| - 1 - k] && y[i] == b[|b| - 1 - k];
    }
  }

  lemma EscapedIsLonger(s: string)
    ensures |EscapeXml(s)| >= |s|
  {
    hide EscapeXml, MapEntities;
    EscapeIsOnePass(s);
    MappedLength(s);
  }

  lemma StaysInFront(same: string, rest: string, at: nat)
    ensures at < |same| ==> (same + rest)[at] == same[at]
  {
  }

  lemma StaysInBack(rest: string, same: string, back: nat)
    ensures 0 < back <= |same| ==> (rest + same)[|rest + same| - back] == same[|same| - back]
  {
  }

  lemma FirstDifference(left: string, p: string, n: string, right: string, same: string, restP: string, restN: string,
                        c: nat)
    requires c < |p| && c < |n| && p[c] != n[c]
    requires left + p + right == same + restP && left + n + right == same + restN
    ensures |same| <= |left| + c
  {
    var at := |left| + c;
    assert (left + p + right)[at] == p[c] && (left + n + right)[at] == n[c];
    StaysInFront(same, restP, at);
    StaysInFront(same, restN, at);
  }

  lemma LastDifference(left: string, p: string, n: string, right: string, restP: string, restN: string, same: string,
                       c: nat)
    requires c < |p| && c < |n| && p[|p| - 1 - c] != n[|n| - 1 - c]
    requires left + p + right == restP + same && left + n + right == restN + same
    ensures |same| <= |right| + c
  {
    var s, t, back := left + p + right, left + n + right, |right| + c + 1;
    assert s[|s| - back] == p[|p| - 1 - c] && t[|t| - back] == n[|n| - 1 - c];
    StaysInBack(restP, same, back);
    StaysInBack(restN, same, back);
  }

  /** Where two texts first differ, their escaped forms are not before that yet. */
  lemma DiffersInFront(before: string, p: string, n: string, after: string, left: string, right: string, c: nat)
    requires c < |p| && c < |n| && p[..c] == n[..c] && p[c] != n[c]
    requires left + p + right == before + EscapeXml(p) + after
    requires left + n + right == before + EscapeXml(n) + after
    ensures |before| <= |left|
  {
    hide EscapeXml;
    var x := p[..c];
    EscapedIsLonger(x);
    assert p == x + p[c..] && n == x + n[c..];
    EscapeAppend(x, p[c..]);
    EscapeAppend(x, n[c..]);
    var same, restP, restN := before + EscapeXml(x), EscapeXml(p[c..]) + after, EscapeXml(n[c..]) + after;
    assert before + EscapeXml(p) + after == same + restP;
    assert before + EscapeXml(n) + after == same + restN;
    FirstDifference(left, p, n, right, same, restP, restN, c);
  }

  lemma DiffersInBack(before: string, p: string, n: string, after: string, left: string, right: string, c: nat)
    requires c < |p| && c < |n| && p[|p| - c..] == n[|n| - c..] && p[|p| - 1 - c] != n[|n| - 1 - c]
    requires left + p + right == before + EscapeXml(p) + after
    requires left + n + right == before + EscapeXml(n) + after
    ensures |after| <= |right|
  {
    hide EscapeXml;
    var x, frontP, frontN := p[|p| - c..], p[..|p| - c], n[..|n| - c];
    EscapedIsLonger(x);
    assert p == frontP + x && n == frontN + x;
    EscapeAppend(frontP, x);
    EscapeAppend(frontN, x);
    var same, restP, restN := EscapeXml(x) + after, before + EscapeXml(frontP), before + EscapeXml(frontN);
    assert before + EscapeXml(p) + after == restP + same;
    assert before + EscapeXml(n) + after == restN + same;
    LastDifference(left, p, n, right, restP, restN, same, c);
  }

  /**
   A text with a quote that occurs somewhere around its own escaped form: exchanging that occurrence
   for another text never gives the escaped form of the other text in its place.
   */
  lemma ExchangeIsNotEscaping(before: string, p: string, n: string, after: string, left: string, right: string)
    requires QuotedBetween(before, after) && !Lacks(p, '\'') && n != p
    requires left + p + right == before + EscapeXml(p) + after
    ensures left + n + right != before + EscapeXml(n) + after
  {
    hide EscapeXml, QuotedBetween, Agreeing;
    if left + n + right == before + EscapeXml(n) + after {
      AgreeingIsLongest(p, n);
      var c := Agreeing(p, n);
      var d := AgreeingBack(p, n);
      if c == |p| {
        assert n == p + n[c..];
        ExtendedAtEnd(before, p, n[c..], after, left, right);
      } else if c == |n| {
        assert p == n + p[c..];
        ExtendedAtEnd(before, n, p[c..], after, left, right);
      } else if d == |p| {
        assert n == n[..|n| - d] + p;
        ExtendedAtFront(before, p, n[..|n| - d], after, left, right);
      } else if d == |n| {
        assert p == p[..|p| - d] + n;
        ExtendedAtFront(before, n, p[..|p| - d], after, left, right);
      } else {
        DiffersInFront(before, p, n, after, left, right, c);
        DiffersInBack(before, p, n, after, left, right, d);
        LiesWithin(before, EscapeXml(p), after, left, p, right);
        EscapedIsPlain(p);
      }
    }
  }

  lemma LiesWithin(before: string, text: string, after: string, left: string, p: string, right: string)
    requires left + p + right == before + text + after && |before| <= |left| && |after| <= |right|
    ensures forall c :: Lacks(text, c) ==> Lacks(p, c)
  {
    var s, k := left + p + right, |left| - |before|;
    assert forall i :: 0 <= i < |p| ==> p[i] == s[|left| + i] == text[k + i];
  }
}
