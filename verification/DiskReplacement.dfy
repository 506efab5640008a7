/**
 Replacing the disk source in a printed document: a textual substitution that means exactly what
 printing the changed specification means, and when it can be undone.
 */
module DiskReplacement {
  import opened Results
  import opened Text
  import opened Markup
  import opened Escaping
  import opened QuotedText
  import opened DomainXml
  import opened Topology
  import opened DocumentParts
  import opened DocumentBlocks
  import opened TopologyTheorem

  datatype ReplaceError = NotExactlyOneSource

  /** The number of non-overlapping occurrences, left to right; an empty pattern matches everywhere. */
  function Matches(s: string, p: string): nat
    decreases |s|
  {
    if p == "" then |s| + 1
    else
      match Find(s, p)
      case None => 0
      case Some(at) =>
        FindIsFirst(s, p);
        1 + Matches(s[at + |p|..], p)
  }

  function ReplaceFirst(s: string, removed: string, added: string): string {
    match Find(s, removed)
    case None => s
    case Some(at) =>
      FindIsFirst(s, removed);
      s[..at] + added + s[at + |removed|..]
  }

  function ReplaceDomainDisk(xml: string, oldPath: string, newPath: string): Result<string, ReplaceError> {
    if Matches(xml, oldPath) != 1 || Contains(xml, newPath) then Failure(NotExactlyOneSource)
    else Success(ReplaceFirst(xml, oldPath, newPath))
  }

  // ---------------------------------------------------------------- a quoted stretch of text

  ghost predicate OccursOnlyAt(s: string, p: string, at: int) {
    OccursAt(s, p, at) && forall j: int :: OccursAt(s, p, j) ==> j == at
  }

  lemma MiddleOccurs(before: string, middle: string, after: string)
    ensures OccursAt(before + middle + after, middle, |before|)
  {
    assert (before + middle + after)[|before|..|before| + |middle|] == middle;
  }

  /** An occurrence of quote-free text lies wholly before, between or after the two quotes. */
  lemma NoStraddling(before: string, middle: string, after: string, p: string, j: nat)
    requires QuotedBetween(before, after) && Lacks(p, '\'') && p != ""
    requires OccursAt(before + middle + after, p, j)
    ensures || OccursAt(before, p, j)
            || (j >= |before| && OccursAt(middle, p, j - |before|))
            || (j >= |before| + |middle| && OccursAt(after, p, j - |before| - |middle|))
  {
    var s, end := before + middle + after, |before| + |middle|;
    if j < |before| < j + |p| {
      assert s[|before| - 1] == '\'';
      WrongCharacter(s, p, j, |before| - 1 - j);
    } else if j < |before| {
      assert s[j..j + |p|] == before[j..j + |p|];
    } else if j <= end < j + |p| {
      assert s[end] == '\'';
      WrongCharacter(s, p, j, end - j);
    } else if j < end {
      assert s[j..j + |p|] == middle[j - |before|..j - |before| + |p|];
    } else {
      assert s[j..j + |p|] == after[j - end..j - end + |p|];
    }
  }

  lemma OccursBefore(before: string, rest: string, p: string, j: nat)
    requires OccursAt(before, p, j)
    ensures OccursAt(before + rest, p, j)
  {
    assert (before + rest)[j..j + |p|] == before[j..j + |p|];
  }

  /** Within the quotes only the whole text itself is an occurrence of it. */
  lemma OnlyOneFits(middle: string, j: nat)
    requires OccursAt(middle, middle, j)
    ensures j == 0
  {
  }

  lemma {:induction false} MatchesSome(s: string, p: string, j: nat)
    requires p != "" && OccursAt(s, p, j)
    ensures Matches(s, p) >= 1
  {
    FindIsFirst(s, p);
  }

  /** The quoted text is counted once exactly when it occurs nowhere else. */
  lemma CountedOnceIff(before: string, middle: string, after: string)
    requires QuotedBetween(before, after) && Lacks(middle, '\'') && middle != ""
    ensures Matches(before + middle + after, middle) == 1 <==> OccursOnlyAt(before + middle + after, middle, |before|)
  {
    hide Matches;
    var s := before + middle + after;
    MiddleOccurs(before, middle, after);
    FindIsFirst(s, middle);
    var at := Find(s, middle).value;
    FirstOfMatches(s, middle, at);
    if at < |before| {
      NoStraddling(before, middle, after, middle, at);
      OccursLater(s, middle, at, |before|);
      MatchesSome(s[at + |middle|..], middle, |before| - at - |middle|);
    } else {
      OnlyAtIff(before, middle, after);
    }
  }

  lemma FirstOfMatches(s: string, p: string, at: nat)
    requires p != "" && Find(s, p) == Some(at)
    ensures at + |p| <= |s| && Matches(s, p) == 1 + Matches(s[at + |p|..], p)
    ensures Matches(s[at + |p|..], p) == 0 <==> Find(s[at + |p|..], p).None?
  {
    hide Find, OccursAt, Matches;
    assert at + |p| <= |s| by { FindFits(s, p); }
    MatchesStep(s, p);
    MatchesStep(s[at + |p|..], p);
  }

  lemma FindFits(s: string, p: string)
    ensures Find(s, p).Some? ==> Find(s, p).value + |p| <= |s|
  {
    FindIsFirst(s, p);
  }

  lemma MatchesStep(s: string, p: string)
    requires p != ""
    ensures Find(s, p).None? ==> Matches(s, p) == 0
    ensures Find(s, p).Some? ==>
              && Find(s, p).value + |p| <= |s|
              && Matches(s, p) == 1 + Matches(s[Find(s, p).value + |p|..], p)
  {
    hide Find;
    FindIsFirst(s, p);
  }

  /** An occurrence past another one occurs in what follows the latter. */
  lemma OccursLater(s: string, p: string, at: nat, j: nat)
    requires at + |p| <= |s|
    ensures at + |p| <= j ==> (OccursAt(s, p, j) <==> OccursAt(s[at + |p|..], p, j - at - |p|))
  {
    assert s == s[..at + |p|] + s[at + |p|..];
    OccursInSuffix(s[..at + |p|], s[at + |p|..], p, j - at - |p|);
  }

  /** With nothing before it, the quoted text is the only occurrence exactly if none follows it. */
  lemma OnlyAtIff(before: string, middle: string, after: string)
    requires QuotedBetween(before, after) && Lacks(middle, '\'') && middle != ""
    requires Find(before + middle + after, middle) == Some(|before|)
    ensures OccursOnlyAt(before + middle + after, middle, |before|)
       <==> Find((before + middle + after)[|before| + |middle|..], middle).None?
  {
    var s, at := before + middle + after, |before|;
    var rest := s[at + |middle|..];
    FindIsFirst(s, middle);
    FindIsFirst(rest, middle);
    if Find(rest, middle).Some? {
      OccursLater(s, middle, at, at + |middle| + Find(rest, middle).value);
    } else {
      forall j: int | OccursAt(s, middle, j) ensures j == at {
        if j >= at + |middle| {
          OccursLater(s, middle, at, j);
        } else {
          NoStraddling(before, middle, after, middle, j);
        }
      }
    }
  }

  lemma FirstIsReplaced(before: string, middle: string, after: string, added: string)
    requires OccursOnlyAt(before + middle + after, middle, |before|)
    ensures ReplaceFirst(before + middle + after, middle, added) == before + added + after
  {
    var s := before + middle + after;
    FindIsFirst(s, middle);
    assert s[..|before|] == before && s[|before| + |middle|..] == after;
  }

  /** What replacing quoted text does: it succeeds exactly under these two conditions, and only there. */
  lemma ReplaceQuoted(before: string, middle: string, after: string, added: string)
    requires QuotedBetween(before, after) && Lacks(middle, '\'') && middle != ""
    ensures ReplaceDomainDisk(before + middle + after, middle, added)
         == if OccursOnlyAt(before + middle + after, middle, |before|) && !Contains(before + middle + after, added)
            then Success(before + added + after)
            else Failure(NotExactlyOneSource)
  {
    CountedOnceIff(before, middle, after);
    if OccursOnlyAt(before + middle + after, middle, |before|) {
      FirstIsReplaced(before, middle, after, added);
    }
  }

  lemma NothingIsContained(s: string)
    ensures Contains(s, "")
  {
    assert OccursAt(s, "", 0);
    FindIsFirst(s, "");
  }

  /** Text that a document lacks occurs only where it is put between quotes. */
  lemma OnlyWherePut(before: string, middle: string, after: string, added: string)
    requires QuotedBetween(before, after) && Lacks(added, '\'') && !Contains(before + middle + after, added)
    ensures added != "" && OccursOnlyAt(before + added + after, added, |before|)
  {
    var s, t := before + middle + after, before + added + after;
    assert before + (middle + after) == s;
    FindIsFirst(s, added);
    NothingIsContained(s);
    MiddleOccurs(before, added, after);
    forall j: int | OccursAt(t, added, j) ensures j == |before| {
      NoStraddling(before, added, after, added, j);
      if OccursAt(before, added, j) {
        OccursBefore(before, middle + after, added, j);
      } else if j >= |t| - |after| && OccursAt(after, added, j - |t| + |after|) {
        OccursInSuffix(before + middle, after, added, j - |t| + |after|);
      }
    }
  }

  /** What was replaced is gone, unless the new text contains it. */
  lemma OldRemainsIff(before: string, removed: string, after: string, added: string)
    requires QuotedBetween(before, after) && Lacks(removed, '\'') && removed != ""
    requires OccursOnlyAt(before + removed + after, removed, |before|)
    ensures Contains(before + added + after, removed) <==> Contains(added, removed)
  {
    var s, t := before + removed + after, before + added + after;
    assert before + (removed + after) == s;
    FindIsFirst(t, removed);
    FindIsFirst(added, removed);
    if Contains(t, removed) {
      var j := Find(t, removed).value;
      NoStraddling(before, added, after, removed, j);
      if OccursAt(before, removed, j) {
        OccursBefore(before, removed + after, removed, j);
      } else if j >= |t| - |after| && OccursAt(after, removed, j - |t| + |after|) {
        OccursInSuffix(before + removed, after, removed, j - |t| + |after|);
      }
    }
    if Contains(added, removed) {
      var i := Find(added, removed).value;
      OccursInSuffix(before, added, removed, i);
      OccursBefore(before + added, after, removed, |before| + i);
    }
  }

  // ---------------------------------------------------------------- the printed document around the path

  function BeforeSource(spec: DomainSpec): seq<Token> {
    Head(spec) + Line(2, [DISK_OPEN]) + Line(3, [DISK_DRIVER]) + [Chars(Indentation(3))]
  }

  function AfterSource(spec: DomainSpec): seq<Token> {
    [Chars("\n")] + Line(3, [DISK_TARGET]) + Line(2, [Close("disk")]) + InterfacesTokens(spec.networkInterfaces)
    + ChannelsTokens(spec.channels) + DisplayTokens() + Tail()
  }

  function TextBefore(spec: DomainSpec): string {
    Print(BeforeSource(spec)) + "<source file='"
  }

  function TextAfter(spec: DomainSpec): string {
    "'/>" + Print(AfterSource(spec))
  }

  lemma RegroupSource(head: seq<Token>, open: seq<Token>, driver: seq<Token>, indent: seq<Token>, source: seq<Token>,
                      newline: seq<Token>, target: seq<Token>, close: seq<Token>, interfaces: seq<Token>,
                      channels: seq<Token>, display: seq<Token>, tail: seq<Token>)
    ensures head + (open + driver + (indent + source + newline) + target + close)
            + interfaces + channels + display + tail
         == (head + open + driver + indent) + source
            + (newline + target + close + interfaces + channels + display + tail)
  {
  }

  lemma SourceInDocument(spec: DomainSpec, path: string)
    ensures DocumentTokens(spec, path) == BeforeSource(spec) + [DiskSource(path)] + AfterSource(spec)
  {
    hide Head, Tail, DocumentTokens, InterfacesTokens, ChannelsTokens, DisplayTokens, Indentation, EscapeXml;
    DocumentParted(spec, path);
    RegroupSource(Head(spec), Line(2, [DISK_OPEN]), Line(3, [DISK_DRIVER]), [Chars(Indentation(3))], [DiskSource(path)],
                  [Chars("\n")], Line(3, [DISK_TARGET]), Line(2, [Close("disk")]),
                  InterfacesTokens(spec.networkInterfaces), ChannelsTokens(spec.channels), DisplayTokens(), Tail());
  }

  lemma ShowOneAttribute(name: string, key: string, value: string)
    ensures Show(Empty(name, [Attribute(key, value)])) == ("<" + name + " " + key + "='") + value + "'/>"
  {
    var attributes := [Attribute(key, value)];
    assert attributes[1..] == [];
    assert ShowAttributes(attributes) == " " + key + "='" + value + "'" + "";
  }

  lemma SourceLead()
    ensures "<" + "source" + " " + "file" + "='" == "<source file='"
  {
  }

  lemma ShowSource(path: string)
    ensures Show(DiskSource(path)) == "<source file='" + EscapeXml(path) + "'/>"
  {
    hide EscapeXml, Show;
    ShowOneAttribute("source", "file", EscapeXml(path));
    SourceLead();
  }

  /** The document of a specification is the same text for every path, but for the escaped path itself. */
  lemma PathInDocument(spec: DomainSpec, path: string)
    ensures Print(DocumentTokens(spec, path)) == TextBefore(spec) + EscapeXml(path) + TextAfter(spec)
    ensures QuotedBetween(TextBefore(spec), TextAfter(spec))
    ensures Lacks(EscapeXml(path), '\'')
  {
    hide Print, Show, BeforeSource, AfterSource, DocumentTokens, EscapeXml;
    SourceInDocument(spec, path);
    PrintAppend(BeforeSource(spec) + [DiskSource(path)], AfterSource(spec));
    PrintAppend(BeforeSource(spec), [DiskSource(path)]);
    PrintCons(DiskSource(path), []);
    assert [DiskSource(path)] + [] == [DiskSource(path)];
    assert Print([]) == "" by { PrintNothing(); }
    ShowSource(path);
    EscapedIsPlain(path);
    RegroupText(Print(BeforeSource(spec)), "<source file='", EscapeXml(path), "'/>", Print(AfterSource(spec)));
  }

  lemma PrintNothing()
    ensures Print([]) == ""
  {
  }

  lemma RegroupText(a: string, b: string, c: string, d: string, e: string)
    ensures a + ((b + c + d) + "") + e == (a + b) + c + (d + e)
  {
  }

  // ---------------------------------------------------------------- the theorems

  function WithPath(spec: DomainSpec, path: string): DomainSpec
    requires |spec.disks| == 1
  {
    spec.(disks := [spec.disks[0].(sourceFile := path)])
  }

  lemma EscapedIsNotEmpty(s: string)
    requires s != ""
    ensures EscapeXml(s) != ""
  {
    EscapeIsOnePass(s);
    MappedLength(s);
  }

  /**
   Replacing the disk path in the document of a valid specification, with both paths in their
   escaped form: it succeeds exactly when the old text occurs nowhere else and the new one nowhere,
   and then the result is the document printed with the new path.
   */
  lemma ReplacedDocument(spec: DomainSpec, xml: string, newPath: string)
    requires RenderXml(spec) == Success(xml)
    ensures |spec.disks| == 1
    ensures ReplaceDomainDisk(xml, EscapeXml(spec.disks[0].sourceFile), EscapeXml(newPath))
         == if && OccursOnlyAt(xml, EscapeXml(spec.disks[0].sourceFile), |TextBefore(spec)|)
               && !Contains(xml, EscapeXml(newPath))
            then Success(Print(DocumentTokens(spec, newPath)))
            else Failure(NotExactlyOneSource)
  {
    hide RenderXml, Print, DocumentTokens, EscapeXml, TextBefore, TextAfter, ReplaceDomainDisk, OccursOnlyAt;
    RenderedIsValid(spec, xml);
    var oldPath := spec.disks[0].sourceFile;
    PathInDocument(spec, oldPath);
    PathInDocument(spec, newPath);
    PathIsNotEmpty(spec);
    EscapedIsNotEmpty(oldPath);
    ReplaceQuoted(TextBefore(spec), EscapeXml(oldPath), TextAfter(spec), EscapeXml(newPath));
  }

  lemma PathIsNotEmpty(spec: DomainSpec)
    requires Validate(spec).Success?
    ensures |spec.disks| == 1 && StartsWith(spec.disks[0].sourceFile, "/") && spec.disks[0].sourceFile != ""
  {
    hide Trim, ValidUuid, ValidNetwork;
  }

  /** The document does not depend on the path recorded in the specification, only on the one printed. */
  lemma OnlyThePathDiffers(spec: DomainSpec, path: string)
    requires Validate(spec).Success? && StartsWith(path, "/")
    ensures |spec.disks| == 1 && RenderXml(WithPath(spec, path)) == Success(Print(DocumentTokens(spec, path)))
  {
    hide Print, DocumentTokens, Validate;
    PathIsNotEmpty(spec);
    ValidWithPath(spec, path);
    SameTokens(spec, path);
  }

  lemma ValidWithPath(spec: DomainSpec, path: string)
    requires Validate(spec).Success? && StartsWith(path, "/")
    ensures |spec.disks| == 1 && Validate(WithPath(spec, path)).Success?
  {
    hide Trim, ValidUuid, StartsWith, ValidNetwork;
  }

  lemma SameTokens(spec: DomainSpec, path: string)
    requires |spec.disks| == 1
    ensures DocumentTokens(WithPath(spec, path), path) == DocumentTokens(spec, path)
  {
    hide Line, InterfacesTokens, ChannelsTokens, DisplayTokens, DiskTokens, OsTokens, PlatformTokens;
  }

  /**
   Replacement preserves meaning: for plain paths, a successful replacement is the document of the
   specification with only its disk path changed.
   */
  lemma ReplacementIsRendering(spec: DomainSpec, xml: string, newPath: string, changed: string)
    requires RenderXml(spec) == Success(xml) && |spec.disks| == 1
    requires Unspecial(spec.disks[0].sourceFile) && Unspecial(newPath) && StartsWith(newPath, "/")
    requires ReplaceDomainDisk(xml, spec.disks[0].sourceFile, newPath) == Success(changed)
    ensures RenderXml(WithPath(spec, newPath)) == Success(changed)
  {
    hide RenderXml, Print, DocumentTokens, EscapeXml, ReplaceDomainDisk, OccursOnlyAt, Unspecial, StartsWith;
    RenderedIsValid(spec, xml);
    EscapeChangesNothingIff(spec.disks[0].sourceFile);
    EscapeChangesNothingIff(newPath);
    ReplacedDocument(spec, xml, newPath);
    OnlyThePathDiffers(spec, newPath);
  }

  /**
   The text that the document holds for the path is replaced by a path as it stands: the result is the
   document of the changed specification exactly when the new path needs no escaping.
   */
  lemma UnescapedReplacementIff(spec: DomainSpec, xml: string, newPath: string, changed: string)
    requires RenderXml(spec) == Success(xml) && |spec.disks| == 1 && StartsWith(newPath, "/")
    requires ReplaceDomainDisk(xml, EscapeXml(spec.disks[0].sourceFile), newPath) == Success(changed)
    ensures RenderXml(WithPath(spec, newPath)) == Success(changed) <==> Unspecial(newPath)
  {
    hide RenderXml, Print, DocumentTokens, EscapeXml, ReplaceDomainDisk, OccursOnlyAt, Unspecial, StartsWith,
         TextBefore, TextAfter;
    RenderedIsValid(spec, xml);
    var oldPath := spec.disks[0].sourceFile;
    EscapeChangesNothingIff(newPath);
    PathIsNotEmpty(spec);
    EscapedIsNotEmpty(oldPath);
    PathInDocument(spec, oldPath);
    PathInDocument(spec, newPath);
    ReplaceQuoted(TextBefore(spec), EscapeXml(oldPath), TextAfter(spec), newPath);
    OnlyThePathDiffers(spec, newPath);
    SameMiddle(TextBefore(spec), newPath, EscapeXml(newPath), TextAfter(spec));
  }

  lemma SameMiddle(before: string, a: string, b: string, after: string)
    ensures before + a + after == before + b + after <==> a == b
  {
    if before + a + after == before + b + after {
      assert |a| == |b|;
      assert a == (before + a + after)[|before|..|before| + |a|];
      assert b == (before + b + after)[|before|..|before| + |b|];
    }
  }

  /**
   Undoing, for every new text: putting the path's text back restores the original document exactly when
   the new text does not contain it, is counted once in the changed document, and is found first at the
   place where it was put.
   */
  lemma ReplacingBackIff(spec: DomainSpec, xml: string, newText: string, changed: string)
    requires RenderXml(spec) == Success(xml) && |spec.disks| == 1
    requires ReplaceDomainDisk(xml, EscapeXml(spec.disks[0].sourceFile), newText) == Success(changed)
    ensures ReplaceDomainDisk(changed, newText, EscapeXml(spec.disks[0].sourceFile)) == Success(xml)
       <==> && !Contains(newText, EscapeXml(spec.disks[0].sourceFile))
            && Matches(changed, newText) == 1 && Find(changed, newText) == Some(|TextBefore(spec)|)
  {
    hide RenderXml, Print, DocumentTokens, EscapeXml, OccursOnlyAt, TextBefore, TextAfter, Contains, ReplaceDomainDisk,
         Find, Matches;
    RenderedIsValid(spec, xml);
    var before, oldText, after := TextBefore(spec), EscapeXml(spec.disks[0].sourceFile), TextAfter(spec);
    PathIsNotEmpty(spec);
    EscapedIsNotEmpty(spec.disks[0].sourceFile);
    PathInDocument(spec, spec.disks[0].sourceFile);
    ReplaceQuoted(before, oldText, after, newText);
    PuttingBackIff(before, oldText, after, newText);
  }

  lemma PuttingBackIff(before: string, removed: string, after: string, added: string)
    requires QuotedBetween(before, after) && Lacks(removed, '\'') && removed != ""
    requires OccursOnlyAt(before + removed + after, removed, |before|) && !Contains(before + removed + after, added)
    ensures ReplaceDomainDisk(before + added + after, added, removed) == Success(before + removed + after)
       <==> && !Contains(added, removed)
            && Matches(before + added + after, added) == 1 && Find(before + added + after, added) == Some(|before|)
  {
    hide Matches, Find, OccursOnlyAt, QuotedBetween, Contains, OccursAt;
    var s, t := before + removed + after, before + added + after;
    NothingIsContained(s);
    OldRemainsIff(before, removed, after, added);
    MatchesStep(t, added);
    if Matches(t, added) == 1 {
      var at := Find(t, added).value;
      assert ReplaceFirst(t, added, removed) == t[..at] + removed + t[at + |added|..];
      MiddleOccurs(t[..at], removed, t[at + |added|..]);
      OnlyThere(s, removed, |before|, at);
      PutBack(before, removed, after, added);
    }
  }

  lemma PutBack(before: string, removed: string, after: string, added: string)
    ensures var t := before + added + after;
            t[..|before|] + removed + t[|before| + |added|..] == before + removed + after
  {
    var t := before + added + after;
    assert t[..|before|] == before && t[|before| + |added|..] == after;
  }

  lemma OnlyThere(s: string, p: string, i: int, j: int)
    requires OccursOnlyAt(s, p, i)
    ensures OccursAt(s, p, j) ==> j == i
  {
  }

  /**
   A new text without a quote is found just where it was put: replacing back restores the original
   document exactly when the new text does not contain the old one; otherwise the way back is refused.
   */
  lemma ReplacingBack(spec: DomainSpec, xml: string, newText: string, changed: string)
    requires RenderXml(spec) == Success(xml) && |spec.disks| == 1 && Lacks(newText, '\'')
    requires ReplaceDomainDisk(xml, EscapeXml(spec.disks[0].sourceFile), newText) == Success(changed)
    ensures ReplaceDomainDisk(changed, newText, EscapeXml(spec.disks[0].sourceFile))
         == if Contains(newText, EscapeXml(spec.disks[0].sourceFile)) then Failure(NotExactlyOneSource)
            else Success(xml)
  {
    hide RenderXml, Print, DocumentTokens, EscapeXml, OccursOnlyAt, TextBefore, TextAfter, Contains, ReplaceDomainDisk;
    RenderedIsValid(spec, xml);
    var before, oldText, after := TextBefore(spec), EscapeXml(spec.disks[0].sourceFile), TextAfter(spec);
    PathIsNotEmpty(spec);
    EscapedIsNotEmpty(spec.disks[0].sourceFile);
    PathInDocument(spec, spec.disks[0].sourceFile);
    ReplaceQuoted(before, oldText, after, newText);
    OnlyWherePut(before, oldText, after, newText);
    ReplaceQuoted(before, newText, after, oldText);
    OldRemainsIff(before, oldText, after, newText);
  }

  // ---------------------------------------------------------------- paths that the document holds in another form

  lemma SlashesOfEntity(c: char)
    ensures multiset(Entity(c))['/'] == multiset([c])['/']
  {
    assert Special(c) ==> Lacks(Entity(c), '/');
    assert Special(c) ==> '/' !in Entity(c) && '/' !in [c];
    assert !Special(c) ==> Entity(c) == [c];
    hide Entity;
  }

  /** Escaping adds no slashes and takes none away. */
  lemma {:induction false} SlashesOfMapped(s: string)
    ensures multiset(MapEntities(s))['/'] == multiset(s)['/']
  {
    if s != "" {
      hide Entity;
      SlashesOfMapped(s[1..]);
      SlashesOfEntity(s[0]);
      assert s == [s[0]] + s[1..];
    }
  }

  /** An absolute path occurs in its own escaped form at the front or not at all. */
  lemma PathInItsEscapedForm(path: string, k: nat)
    requires StartsWith(path, "/") && OccursAt(EscapeXml(path), path, k)
    ensures k == 0
  {
    hide Entity, EscapeXml;
    EscapeIsOnePass(path);
    SlashesOfMapped(path);
    var escaped := EscapeXml(path);
    var front, rest := escaped[..k], escaped[k + |path|..];
    assert escaped == front + path + rest;
    assert multiset(escaped)['/'] == multiset(front)['/'] + multiset(path)['/'] + multiset(rest)['/'];
    assert path[0] == '/' && Entity('/') == "/" by { EscapedSlash(); }
    assert escaped[0] == '/';
    FrontHasSlash(escaped, k);
  }

  lemma FrontHasSlash(s: string, k: nat)
    requires 0 < |s| && k <= |s| && s[0] == '/'
    ensures k > 0 ==> multiset(s[..k])['/'] > 0
  {
    assert k > 0 ==> s[..k][0] == '/' && '/' in s[..k];
  }

  lemma EscapedSlash()
    ensures Entity('/') == "/"
  {
  }

  lemma {:induction false} EscapedAlikeIff(a: string, b: string)
    ensures EscapeXml(a) == EscapeXml(b) <==> a == b
  {
    hide EscapeXml, DecodeXml;
    DecodeEscaped(a);
    DecodeEscaped(b);
  }

  /** Text up to the first quote, or from the last one on, is determined by the whole. */
  lemma FirstQuote(a: string, b: string, restA: string, restB: string)
    requires Lacks(a, '\'') && Lacks(b, '\'') && a + restA == b + restB
    requires restA != "" && restA[0] == '\'' && restB != "" && restB[0] == '\''
    ensures a == b
  {
    assert (a + restA)[|a|] == '\'' && (b + restB)[|b|] == '\'';
    assert |a| == |b|;
    assert a == (a + restA)[..|a|] && b == (b + restB)[..|b|];
  }

  lemma LastQuote(a: string, b: string, startA: string, startB: string)
    requires Lacks(a, '\'') && Lacks(b, '\'') && startA + a == startB + b
    requires startA != "" && startA[|startA| - 1] == '\'' && startB != "" && startB[|startB| - 1] == '\''
    ensures a == b
  {
    assert (startA + a)[|startA| - 1] == '\'' && (startB + b)[|startB| - 1] == '\'';
    assert |startA| == |startB|;
    assert a == (startA + a)[|startA|..] && b == (startB + b)[|startB|..];
  }

  /** Exchanging something before the quoted text leaves that text as it is. */
  lemma ExchangedBefore(before: string, middle: string, after: string, j: nat, p: string, added: string, other: string)
    requires QuotedBetween(before, after) && Lacks(middle, '\'') && Lacks(other, '\'') && Lacks(p, '\'')
    requires OccursAt(before, p, j) && p != ""
    requires (before + middle + after)[..j] + added + (before + middle + after)[j + |p|..] == before + other + after
    ensures middle == other
  {
    var start := before[..j] + added + before[j + |p|..];
    if j + |p| == |before| {
      WrongCharacter(before, p, j, |p| - 1);
    } else {
      assert (before + middle + after)[..j] == before[..j];
      assert (before + middle + after)[j + |p|..] == before[j + |p|..] + middle + after;
      assert start + middle + after == before + other + after;
      SameEnds(start + middle, before + other, after);
      LastQuote(middle, other, start, before);
    }
  }

  /** Exchanging something after the quoted text leaves that text as it is. */
  lemma ExchangedAfter(before: string, middle: string, after: string, j: nat, p: string, added: string, other: string)
    requires QuotedBetween(before, after) && Lacks(middle, '\'') && Lacks(other, '\'') && Lacks(p, '\'')
    requires OccursAt(after, p, j) && p != ""
    requires (before + middle + after)[..|before| + |middle| + j] + added
             + (before + middle + after)[|before| + |middle| + j + |p|..] == before + other + after
    ensures middle == other
  {
    var s, at := before + middle + after, |before| + |middle| + j;
    if j == 0 {
      WrongCharacter(after, p, 0, 0);
    } else {
      var rest := after[..j] + added + after[j + |p|..];
      assert s[..at] == before + middle + after[..j];
      assert s[at + |p|..] == after[j + |p|..];
      assert before + (middle + rest) == s[..at] + added + s[at + |p|..];
      assert before + (other + after) == before + other + after;
      SameStarts(before, middle + rest, other + after);
      FirstQuote(middle, other, rest, after);
    }
  }

  /** Replacing the front of the quoted text gives the text with another in between, exactly for this other. */
  lemma ExchangedWithin(before: string, middle: string, after: string, p: string, added: string, other: string)
    requires OccursAt(middle, p, 0)
    ensures ((before + middle + after)[..|before|] + added + (before + middle + after)[|before| + |p|..]
             == before + other + after) <==> other == added + middle[|p|..]
  {
    var s := before + middle + after;
    assert s[..|before|] == before;
    assert s[|before| + |p|..] == middle[|p|..] + after;
    assert before + added + (middle[|p|..] + after) == before + (added + middle[|p|..]) + after;
    SameMiddle(before, added + middle[|p|..], other, after);
  }

  /** What a successful replacement returns, whatever the two texts. */
  lemma ReplacedAt(s: string, removed: string, added: string)
    requires ReplaceDomainDisk(s, removed, added).Success? && removed != ""
    ensures Find(s, removed).Some? && !Contains(s, added)
    ensures OccursAt(s, removed, Find(s, removed).value)
    ensures ReplaceDomainDisk(s, removed, added).value
         == s[..Find(s, removed).value] + added + s[Find(s, removed).value + |removed|..]
  {
    hide Find;
    MatchesStep(s, removed);
    FindIsFirst(s, removed);
  }

  /** An occurrence of the path is in the text before its place, exactly there, or in the text after it. */
  lemma PathOccurs(before: string, path: string, after: string, at: nat)
    requires QuotedBetween(before, after) && Lacks(path, '\'') && StartsWith(path, "/")
    requires OccursAt(before + EscapeXml(path) + after, path, at)
    ensures || OccursAt(before, path, at)
            || (at == |before| && OccursAt(EscapeXml(path), path, 0))
            || (at >= |before| + |EscapeXml(path)| && OccursAt(after, path, at - |before| - |EscapeXml(path)|))
  {
    hide EscapeXml, OccursAt;
    NoStraddling(before, EscapeXml(path), after, path, at);
    if at >= |before| && OccursAt(EscapeXml(path), path, at - |before|) {
      PathInItsEscapedForm(path, at - |before|);
    }
  }

  /**
   The path as it is recorded, which the document may hold in another form: a replacement of it is the
   document of the changed specification exactly when what is found is the front of the path's own
   text and the new path, followed by what is left of that text, is the escaped new path.
   */
  lemma RawReplacementIff(spec: DomainSpec, xml: string, newPath: string, changed: string)
    requires RenderXml(spec) == Success(xml) && |spec.disks| == 1 && StartsWith(newPath, "/")
    requires ReplaceDomainDisk(xml, spec.disks[0].sourceFile, newPath) == Success(changed)
    ensures RenderXml(WithPath(spec, newPath)) == Success(changed)
       <==> && Find(xml, spec.disks[0].sourceFile) == Some(|TextBefore(spec)|)
            && OccursAt(EscapeXml(spec.disks[0].sourceFile), spec.disks[0].sourceFile, 0)
            && EscapeXml(newPath) == newPath + EscapeXml(spec.disks[0].sourceFile)[|spec.disks[0].sourceFile|..]
  {
    hide RenderXml, Print, DocumentTokens, EscapeXml, ReplaceDomainDisk, StartsWith, TextBefore, TextAfter, Find;
    RenderedIsValid(spec, xml);
    var path, before, after := spec.disks[0].sourceFile, TextBefore(spec), TextAfter(spec);
    PathIsNotEmpty(spec);
    PathInDocument(spec, path);
    PathInDocument(spec, newPath);
    OnlyThePathDiffers(spec, newPath);
    if Lacks(path, '\'') {
      RawReplacement(before, path, after, newPath);
    } else {
      QuotedPathReplacement(before, path, after, newPath);
    }
  }

  /** A path with a quote is never found as its own text, and a replacement of it never is the changed document. */
  lemma QuotedPathReplacement(before: string, path: string, after: string, newPath: string)
    requires QuotedBetween(before, after) && !Lacks(path, '\'')
    requires ReplaceDomainDisk(before + EscapeXml(path) + after, path, newPath).Success?
    ensures ReplaceDomainDisk(before + EscapeXml(path) + after, path, newPath).value
         != before + EscapeXml(newPath) + after
    ensures !OccursAt(EscapeXml(path), path, 0)
  {
    hide EscapeXml, ReplaceDomainDisk, Find, QuotedBetween;
    var xml := before + EscapeXml(path) + after;
    ReplacedAt(xml, path, newPath);
    var at := Find(xml, path).value;
    FindIsFirst(xml, newPath);
    assert newPath != path;
    assert xml == xml[..at] + path + xml[at + |path|..];
    ExchangeIsNotEscaping(before, path, newPath, after, xml[..at], xml[at + |path|..]);
    EscapedIsPlain(path);
    var i :| 0 <= i < |path| && path[i] == '\'';
    if |path| <= |EscapeXml(path)| {
      WrongCharacter(EscapeXml(path), path, 0, i);
    }
  }

  lemma RawReplacement(before: string, path: string, after: string, newPath: string)
    requires QuotedBetween(before, after) && Lacks(path, '\'') && StartsWith(path, "/")
    requires ReplaceDomainDisk(before + EscapeXml(path) + after, path, newPath).Success?
    ensures ReplaceDomainDisk(before + EscapeXml(path) + after, path, newPath).value
         == before + EscapeXml(newPath) + after
       <==> && Find(before + EscapeXml(path) + after, path) == Some(|before|)
            && OccursAt(EscapeXml(path), path, 0)
            && EscapeXml(newPath) == newPath + EscapeXml(path)[|path|..]
  {
    hide EscapeXml, ReplaceDomainDisk, Find, OccursAt;
    var xml, text, other := before + EscapeXml(path) + after, EscapeXml(path), EscapeXml(newPath);
    EscapedIsPlain(path);
    EscapedIsPlain(newPath);
    EscapedIsNotEmpty(path);
    ReplacedAt(xml, path, newPath);
    EscapedAlikeIff(path, newPath);
    var at := Find(xml, path).value;
    var changed := ReplaceDomainDisk(xml, path, newPath).value;
    PathOccurs(before, path, after, at);
    if changed == before + other + after {
      if OccursAt(before, path, at) {
        ExchangedBefore(before, text, after, at, path, newPath, other);
      } else if at != |before| {
        ExchangedAfter(before, text, after, at - |before| - |text|, path, newPath, other);
      }
      assert newPath != path;
    }
    if at == |before| && OccursAt(text, path, 0) {
      ExchangedWithin(before, text, after, path, newPath, other);
    }
  }

  // ---------------------------------------------------------------- replacements that fail their purpose

  function Long(c: char, n: nat): string {
    seq(n, _ => c)
  }

  /** A path longer than all the rest of its document. */
  function SamplePath(): string {
    "/" + Long('a', |TextBefore(SampleSpec("/", 1))| + |TextAfter(SampleSpec("/", 1))|)
  }

  function SampleDocument(): string {
    Print(DocumentTokens(SampleSpec(SamplePath(), 1), SamplePath()))
  }

  lemma SampleSurroundings(path: string)
    ensures TextBefore(SampleSpec(path, 1)) == TextBefore(SampleSpec("/", 1))
    ensures TextAfter(SampleSpec(path, 1)) == TextAfter(SampleSpec("/", 1))
  {
    hide Print, Line, Indentation, EscapeXml;
  }

  /** A text longer than what surrounds it occurs only at its place. */
  lemma LongOccursOnce(before: string, middle: string, after: string)
    requires QuotedBetween(before, after) && Lacks(middle, '\'') && |middle| > |before| + |after|
    ensures OccursOnlyAt(before + middle + after, middle, |before|)
  {
    MiddleOccurs(before, middle, after);
    forall j: int | OccursAt(before + middle + after, middle, j) ensures j == |before| {
      NoStraddling(before, middle, after, middle, j);
      if j >= |before| && OccursAt(middle, middle, j - |before|) {
        OnlyOneFits(middle, j - |before|);
      }
    }
  }

  lemma SampleReplacement(newPath: string)
    requires |newPath| > |SampleDocument()|
    ensures RenderXml(SampleSpec(SamplePath(), 1)) == Success(SampleDocument())
    ensures EscapeXml(SamplePath()) == SamplePath()
    ensures ReplaceDomainDisk(SampleDocument(), SamplePath(), newPath).Success?
  {
    hide RenderXml, Print, DocumentTokens, EscapeXml, ReplaceDomainDisk, OccursOnlyAt, TextBefore, TextAfter, Find;
    var path := SamplePath();
    var spec := SampleSpec(path, 1);
    SampleIsValid(path, 1);
    SampleSurroundings(path);
    EscapeChangesNothingIff(path);
    PathInDocument(spec, path);
    LongOccursOnce(TextBefore(spec), path, TextAfter(spec));
    FindFits(SampleDocument(), newPath);
    ReplaceQuoted(TextBefore(spec), path, TextAfter(spec), newPath);
  }

  /** A replacement that succeeds and is not the document of the changed specification. */
  lemma ReplacementThatIsNoRendering()
    ensures var spec, newPath := SampleSpec(SamplePath(), 1), "/" + Long('&', |SampleDocument()|);
            var changed := ReplaceDomainDisk(SampleDocument(), SamplePath(), newPath);
            && RenderXml(spec) == Success(SampleDocument())
            && changed.Success? && RenderXml(WithPath(spec, newPath)) != Success(changed.value)
  {
    hide RenderXml, EscapeXml, ReplaceDomainDisk, SamplePath, SampleDocument;
    var spec, newPath := SampleSpec(SamplePath(), 1), "/" + Long('&', |SampleDocument()|);
    SampleReplacement(newPath);
    assert SampleDocument() != "" by { SampleIsLong(); }
    assert Special(newPath[1]);
    UnescapedReplacementIff(spec, SampleDocument(), newPath,
                            ReplaceDomainDisk(SampleDocument(), SamplePath(), newPath).value);
  }

  lemma SampleIsLong()
    ensures SampleDocument() != ""
  {
    hide Print, DocumentTokens, TextBefore, TextAfter, EscapeXml;
    PathInDocument(SampleSpec(SamplePath(), 1), SamplePath());
  }

  /** A replacement that succeeds and cannot be undone. */
  lemma ReplacementThatCannotBeUndone()
    ensures var newPath := SamplePath() + Long('b', |SampleDocument()|);
            var changed := ReplaceDomainDisk(SampleDocument(), SamplePath(), newPath);
            && RenderXml(SampleSpec(SamplePath(), 1)) == Success(SampleDocument()) && changed.Success?
            && ReplaceDomainDisk(changed.value, newPath, SamplePath()) == Failure(NotExactlyOneSource)
  {
    hide RenderXml, EscapeXml, ReplaceDomainDisk, SampleDocument, SamplePath, Contains;
    var newPath := SamplePath() + Long('b', |SampleDocument()|);
    SamplePathIsPlain(|SampleDocument()|);
    SampleReplacement(newPath);
    ReplacingBack(SampleSpec(SamplePath(), 1), SampleDocument(), newPath,
                  ReplaceDomainDisk(SampleDocument(), SamplePath(), newPath).value);
  }

  lemma SamplePathIsPlain(n: nat)
    ensures Lacks(SamplePath() + Long('b', n), '\'') && SamplePath() != ""
    ensures Contains(SamplePath() + Long('b', n), SamplePath())
  {
    hide Find, TextBefore, TextAfter;
    var path, newPath := SamplePath(), SamplePath() + Long('b', n);
    assert newPath[..|path|] == path && OccursAt(newPath, path, 0);
    FindIsFirst(newPath, path);
  }

  /** The text with which the part before the path ends, from its last slash on. */
  function Lead(): string {
    "/>" + "\n" + Indentation(3) + "<source file='"
  }

  function Repeated(s: string, n: nat): string {
    if n == 0 then "" else s + Repeated(s, n - 1)
  }

  lemma {:induction false} RepeatedFacts(s: string, n: nat)
    requires s != ""
    ensures |Repeated(s, n)| >= n && s + Repeated(s, n) == Repeated(s, n) + s
    ensures forall c :: Lacks(s, c) ==> Lacks(Repeated(s, n), c)
  {
    if n > 0 {
      RepeatedFacts(s, n - 1);
      assert s + (Repeated(s, n - 1) + s) == (s + Repeated(s, n - 1)) + s;
    }
  }

  lemma LeadLacks()
    ensures Lacks(Lead(), 'a') && Lead() != "" && Lead()[0] == '/'
  {
    SpacesLack(3);
  }

  lemma {:induction false} SpacesLack(depth: nat)
    ensures Lacks(Indentation(depth), 'a')
  {
    if depth > 0 {
      SpacesLack(depth - 1);
    }
  }

  lemma EndsWithLead(spec: DomainSpec)
    ensures EndsWith(TextBefore(spec), Lead())
  {
    hide Print, ShowAttributes, Head, Line, Indentation;
    var first, indent := Head(spec) + Line(2, [DISK_OPEN]), Indentation(3);
    PrintAppend(first + Line(3, [DISK_DRIVER]), [Chars(indent)]);
    PrintAppend(first, Line(3, [DISK_DRIVER]));
    LineText(3, [DISK_DRIVER]);
    PrintCons(DISK_DRIVER, []);
    PrintCons(Chars(indent), []);
    PrintNothing();
    assert [DISK_DRIVER] + [] == [DISK_DRIVER] && [Chars(indent)] + [] == [Chars(indent)];
    var start := "<" + (DISK_DRIVER.name + ShowAttributes(DISK_DRIVER.attributes));
    assert Show(DISK_DRIVER) == start + "/>" by { assert "/" + ">" == "/>"; }
    RegroupLead(Print(first), indent, start, "/>", "<source file='");
  }

  lemma RegroupLead(a: string, indent: string, start: string, close: string, source: string)
    ensures (a + (indent + ((start + close) + "") + "\n")) + (indent + "") + source
         == (a + indent + start) + (close + "\n" + indent + source)
  {
  }

  /** A piece that a text ends with, put behind it again and again, is found from where the text has it. */
  lemma FoundTooEarly(before: string, lead: string, n: nat, after: string)
    requires lead != "" && EndsWith(before, lead) && n > 0
    ensures Find(before + Repeated(lead, n) + after, Repeated(lead, n)) != Some(|before|)
  {
    var start, text := before[..|before| - |lead|], Repeated(lead, n);
    RepeatedFacts(lead, n);
    assert before == start + lead;
    assert before + text + after == start + (lead + text) + after == start + text + (lead + after);
    MiddleOccurs(start, text, lead + after);
    FindIsFirst(before + text + after, text);
  }

  /**
   A replacement by an absolute path that neither is refused nor contains the old one, and that still
   cannot be undone: the new path has a quote and is found before its place.
   */
  lemma ReplacementThatIsFoundElsewhere()
    ensures var newPath := Repeated(Lead(), |SampleDocument()| + 1);
            var changed := ReplaceDomainDisk(SampleDocument(), SamplePath(), newPath);
            && StartsWith(newPath, "/") && changed.Success? && !Contains(newPath, SamplePath())
            && ReplaceDomainDisk(changed.value, newPath, SamplePath()) != Success(SampleDocument())
  {
    hide RenderXml, EscapeXml, ReplaceDomainDisk, SampleDocument, SamplePath, Lead, TextBefore, Contains, Find, Matches;
    var spec, n := SampleSpec(SamplePath(), 1), |SampleDocument()| + 1;
    var newPath := Repeated(Lead(), n);
    LeadLacks();
    RepeatedFacts(Lead(), n);
    SampleReplacement(newPath);
    LacksSamplePath(newPath);
    assert newPath == Lead() + Repeated(Lead(), n - 1);
    EndsWithLead(spec);
    SampleIsReplaced(newPath);
    FoundTooEarly(TextBefore(spec), Lead(), n, TextAfter(spec));
    ReplacingBackIff(spec, SampleDocument(), newPath, ReplaceDomainDisk(SampleDocument(), SamplePath(), newPath).value);
  }

  lemma LacksSamplePath(s: string)
    requires Lacks(s, 'a')
    ensures !Contains(s, SamplePath())
  {
    hide SamplePath, Find;
    var path := SamplePath();
    SamplePathIsLong();
    forall j: int ensures !OccursAt(s, path, j) {
      if 0 <= j && j + 1 < |s| {
        WrongCharacter(s, path, j, 1);
      }
    }
    FindNothing(s, path);
  }

  lemma SamplePathIsLong()
    ensures |SamplePath()| > 1 && SamplePath()[1] == 'a'
  {
    hide TextBefore, TextAfter, EscapeXml, Print, DocumentTokens;
    PathInDocument(SampleSpec("/", 1), "/");
    StartsLong('a', |TextBefore(SampleSpec("/", 1))| + |TextAfter(SampleSpec("/", 1))|);
    hide Long, SampleSpec;
  }

  lemma StartsLong(c: char, n: nat)
    ensures n > 0 ==> |"/" + Long(c, n)| > 1 && ("/" + Long(c, n))[1] == c
  {
  }

  lemma SampleIsReplaced(newPath: string)
    requires |newPath| > |SampleDocument()|
    ensures ReplaceDomainDisk(SampleDocument(), SamplePath(), newPath)
         == Success(TextBefore(SampleSpec(SamplePath(), 1)) + newPath + TextAfter(SampleSpec(SamplePath(), 1)))
  {
    hide RenderXml, Print, DocumentTokens, EscapeXml, ReplaceDomainDisk, OccursOnlyAt, TextBefore, TextAfter, Find,
         SamplePath;
    var spec := SampleSpec(SamplePath(), 1);
    SampleReplacement(newPath);
    SamplePathIsPlain(0);
    PathInDocument(spec, SamplePath());
    EscapedIsPlain(SamplePath());
    ReplaceQuoted(TextBefore(spec), SamplePath(), TextAfter(spec), newPath);
  }

  /** What a replacement leaves of the topology: everything but the disk source, which becomes the new path. */
  lemma ReplacedTopology(spec: DomainSpec, xml: string, newPath: string, changed: string, autostart: bool,
                         read: PersistentTopology)
    requires RenderXml(spec) == Success(xml) && |spec.disks| == 1
    requires Unspecial(spec.disks[0].sourceFile) && Unspecial(newPath) && StartsWith(newPath, "/")
    requires ReplaceDomainDisk(xml, spec.disks[0].sourceFile, newPath) == Success(changed)
    requires ReadTopology(xml, autostart) == Success(read)
    ensures |read.disks| == 1
    ensures ReadTopology(changed, autostart) == Success(read.(disks := [read.disks[0].(source := newPath)]))
  {
    hide RenderXml, EscapeXml, ReplaceDomainDisk, Unspecial, StartsWith, ReadTopology, SortedKinds, InterfaceViews;
    EscapeChangesNothingIff(newPath);
    ReplacementIsRendering(spec, xml, newPath, changed);
    RenderedTopology(spec, xml, autostart);
    RenderedTopology(WithPath(spec, newPath), changed, autostart);
    assert SortedKinds(WithPath(spec, newPath)) == SortedKinds(spec) by { SameKinds(spec, newPath); }
  }

  lemma SameKinds(spec: DomainSpec, path: string)
    requires |spec.disks| == 1
    ensures SortedKinds(WithPath(spec, path)) == SortedKinds(spec)
  {
  }
}
