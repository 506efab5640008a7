/** The disk path scanner, which splits a document at disk tags, on printed domain documents. */
module DiskPath {
  import opened Results
  import opened Text
  import opened Markup
  import opened Scanners
  import opened ScannerTheorems
  import opened Escaping
  import opened DomainXml
  import opened DocumentShape
  import opened DocumentParts
  import opened DocumentBlocks
  import opened TopologyTheorem
  import opened DiskReplacement

  // ---------------------------------------------------------------- markers in whole documents

  predicate Unquoted(t: Token) {
    t.Chars? ==> Lacks(t.text, '\'') && Lacks(t.text, '"')
  }

  /** A tag that neither carries the attribute nor could be taken to. */
  predicate Without(t: Token, key: string) {
    t.Open? || t.Empty? ==> Unmistakable(t.attributes, key) && Lookup(t.attributes, key) == None
  }

  predicate AllWithout(ts: seq<Token>, key: string) {
    forall i :: 0 <= i < |ts| ==> Unquoted(ts[i]) && Without(ts[i], key)
  }

  /** Every quote comes after an opening bracket. */
  predicate QuotesInTags(s: string) {
    forall i :: 0 <= i < |s| && s[i] == '\'' ==> exists k :: 0 <= k < i && s[k] == '<'
  }

  lemma QuotesAfterText(text: string, rest: string)
    requires Lacks(text, '\'') && QuotesInTags(rest)
    ensures QuotesInTags(text + rest)
  {
    var s := text + rest;
    forall i | 0 <= i < |s| && s[i] == '\'' ensures exists k :: 0 <= k < i && s[k] == '<' {
      assert i >= |text| && rest[i - |text|] == '\'';
      var k :| 0 <= k < i - |text| && rest[k] == '<';
      assert s[|text| + k] == '<';
    }
  }

  lemma QuotesAfterBracket(s: string)
    requires s != "" && s[0] == '<'
    ensures QuotesInTags(s)
  {
  }

  lemma {:induction false} PrintedQuotesInTags(ts: seq<Token>, key: string)
    requires AllWithout(ts, key)
    ensures QuotesInTags(Print(ts))
  {
    if ts != [] {
      hide QuotesInTags, Without, Inside;
      PrintedQuotesInTags(ts[1..], key);
      if ts[0].Chars? {
        assert Unquoted(ts[0]);
        QuotesAfterText(ts[0].text, Print(ts[1..]));
      } else {
        QuotesAfterBracket(Print(ts));
      }
    }
  }

  lemma MarkerNotInText(text: string, rest: string, key: string)
    requires PlainName(key) && Lacks(text, '\'') && QuotesInTags(rest)
    ensures forall j :: 0 <= j < |text| ==> !OccursAt(text + rest, key + "='", j)
  {
    var s, marker := text + rest, key + "='";
    forall j | 0 <= j < |text| ensures !OccursAt(s, marker, j) {
      var quote := j + |key| + 1;
      if quote < |text| {
        assert s[quote] == text[quote];
        WrongCharacter(s, marker, j, |key| + 1);
      } else if quote < |s| {
        if s[quote] == '\'' {
          assert rest[quote - |text|] == '\'';
          var k :| 0 <= k < quote - |text| && rest[k] == '<';
          assert s[|text| + k] == '<';
          WrongCharacter(s, marker, j, |text| + k - j);
        } else {
          WrongCharacter(s, marker, j, |key| + 1);
        }
      }
    }
  }

  lemma {:induction false} NothingMarked(attributes: seq<Attribute>, key: string)
    requires Unmistakable(attributes, key) && Lookup(attributes, key) == None
    ensures !Marked(attributes, key)
  {
    if attributes != [] {
      hide Marked;
      NothingMarked(attributes[1..], key);
      MarkedStep(attributes, key);
    } else {
      NothingIsMarked(key);
    }
  }

  lemma NotFoundInTag(t: Token, key: string)
    requires Plain(t) && !t.Chars? && PlainName(key) && Without(t, key)
    ensures Find(Show(t), key + "='") == None
  {
    hide Find, Unmistakable, Lookup, Marked, Scanned, PlainName, PlainAttributes, PlainValue;
    if t.Close? {
      assert Lacks(Show(t), '\'') by { ClosingLacksQuote(t); }
      NoMarker(Show(t), key);
    } else {
      var tail := if t.Open? then ">" else "/>";
      TagIsNameAndBody(t);
      NothingMarked(t.attributes, key);
      MarkerInAttributes(t.attributes, tail, key);
      MarkerAfterName(t, ShowAttributes(t.attributes) + tail, key);
    }
  }

  lemma ClosingLacksQuote(t: Token)
    requires t.Close? && PlainName(t.name)
    ensures Lacks(Show(t), '\'')
  {
  }

  /** A marker that starts in a tag ends in it, since a tag's closing bracket is not part of one. */
  lemma MarkerNotInTag(t: Token, rest: string, key: string)
    requires Plain(t) && !t.Chars? && PlainName(key) && Without(t, key)
    ensures forall j :: 0 <= j < |Show(t)| ==> !OccursAt(Show(t) + rest, key + "='", j)
  {
    hide Unmistakable, Lookup, PlainAttributes, PlainValue, ShowAttributes;
    var tag, marker := Show(t), key + "='";
    var s := tag + rest;
    NotFoundInTag(t, key);
    FindIsFirst(tag, marker);
    forall j | 0 <= j < |tag| ensures !OccursAt(s, marker, j) {
      if j + |marker| <= |tag| {
        assert s[j..j + |marker|] == tag[j..j + |marker|];
        assert !OccursAt(tag, marker, j);
      } else {
        assert s[|tag| - 1] == '>';
        WrongCharacter(s, marker, j, |tag| - 1 - j);
      }
    }
  }

  lemma {:induction false} MarkerNotPrinted(ts: seq<Token>, key: string)
    requires AllPlain(ts) && PlainName(key) && AllWithout(ts, key)
    ensures Find(Print(ts), key + "='") == None
  {
    if ts == [] {
      NoMarker("", key);
    } else {
      hide Find, PlainName, Unquoted, Without, Plain;
      var t, rest := ts[0], Print(ts[1..]);
      MarkerNotPrinted(ts[1..], key);
      PrintedQuotesInTags(ts[1..], key);
      assert Plain(t) && Unquoted(t) && Without(t, key);
      if t.Chars? {
        TextLacksQuote(t);
        MarkerNotInText(t.text, rest, key);
      } else {
        MarkerNotInTag(t, rest, key);
      }
      FindSkips(Show(t), rest, key + "='");
    }
  }

  lemma TextLacksQuote(t: Token)
    requires t.Chars? && Unquoted(t)
    ensures Lacks(t.text, '\'')
  {
  }

  lemma {:induction false} PrintedLacksDoubleQuote(ts: seq<Token>, key: string)
    requires AllPlain(ts) && AllWithout(ts, key)
    ensures Lacks(Print(ts), '"')
  {
    if ts != [] {
      PrintedLacksDoubleQuote(ts[1..], key);
      assert Unquoted(ts[0]) && Plain(ts[0]);
      if !ts[0].Chars? {
        InsideIsPlain(ts[0]);
      }
    }
  }

  /** A longer pattern that contains an absent one is absent too. */
  lemma AbsentWithPrefix(s: string, p: string, more: string)
    requires Find(s, p) == None
    ensures !Contains(s, p + more)
  {
    FindIsFirst(s, p);
    FindIsFirst(s, p + more);
    if Contains(s, p + more) {
      var j := Find(s, p + more).value;
      assert s[j..j + |p + more|][..|p|] == s[j..j + |p|];
      assert OccursAt(s, p, j);
    }
  }

  lemma AbsentCharacter(s: string, c: char, p: string, k: nat)
    requires Lacks(s, c) && k < |p| && p[k] == c
    ensures !Contains(s, p)
  {
    FindIsFirst(s, p);
  }

  // ---------------------------------------------------------------- the two sections of a printed document

  /** Everything before the disk tag. */
  function BeforeDisk(spec: DomainSpec): seq<Token> {
    Head(spec) + [Chars(Indentation(2))]
  }

  /** Everything after the disk tag. */
  function AfterDisk(spec: DomainSpec, path: string): seq<Token> {
    [Chars("\n")] + DiskBody(path) + Line(2, [Close("disk")]) + InterfacesTokens(spec.networkInterfaces)
    + ChannelsTokens(spec.channels) + DisplayTokens() + Tail()
  }

  lemma RegroupDisk(head: seq<Token>, indent: seq<Token>, open: seq<Token>, newline: seq<Token>, body: seq<Token>,
                    close: seq<Token>, interfaces: seq<Token>, channels: seq<Token>, display: seq<Token>,
                    tail: seq<Token>)
    ensures head + ((indent + open + newline) + body + close) + interfaces + channels + display + tail
         == (head + indent) + open + (newline + body + close + interfaces + channels + display + tail)
  {
  }

  lemma DiskInDocument(spec: DomainSpec, path: string)
    ensures DocumentTokens(spec, path) == BeforeDisk(spec) + [DISK_OPEN] + AfterDisk(spec, path)
  {
    hide Head, Tail, DocumentTokens, DiskBody, DiskTokens, InterfacesTokens, ChannelsTokens, DisplayTokens, Indentation;
    DocumentParted(spec, path);
    DiskIsFramed(path);
    RegroupDisk(Head(spec), [Chars(Indentation(2))], [DISK_OPEN], [Chars("\n")], DiskBody(path),
                Line(2, [Close("disk")]), InterfacesTokens(spec.networkInterfaces), ChannelsTokens(spec.channels),
                DisplayTokens(), Tail());
  }

  lemma AllWithoutAppend(a: seq<Token>, b: seq<Token>, key: string)
    requires AllWithout(a, key) && AllWithout(b, key)
    ensures AllWithout(a + b, key)
  {
    hide Unquoted, Without;
  }

  const DEVICE: string := "device"

  predicate EndsAsDevice(name: string) {
    |name| < 2 || (name[|name| - 2] == 'c' && name[|name| - 1] == 'e')
  }

  /** Attributes none of whose names ends as `device` does. */
  predicate FarFromDevice(attributes: seq<Attribute>) {
    forall i :: 0 <= i < |attributes| ==>
      && !EndsAsDevice(attributes[i].name)
      && attributes[i].value != "" && attributes[i].value[|attributes[i].value| - 1] != '='
  }

  lemma {:induction false} FarIsWithout(attributes: seq<Attribute>)
    requires FarFromDevice(attributes)
    ensures Unmistakable(attributes, DEVICE) && Lookup(attributes, DEVICE) == None
  {
    if attributes != [] {
      FarIsWithout(attributes[1..]);
      var name, value := attributes[0].name, attributes[0].value;
      if |name| >= 6 {
        var end := name[|name| - 6..];
        assert end[4] == name[|name| - 2] && end[5] == name[|name| - 1];
      }
      NoMarkerAtEnd(value, DEVICE);
    }
  }

  lemma FarTag(name: string, attributes: seq<Attribute>)
    requires FarFromDevice(attributes)
    ensures Without(Open(name, attributes), DEVICE) && Without(Empty(name, attributes), DEVICE)
  {
    FarIsWithout(attributes);
  }

  lemma {:induction false} IndentationIsUnquoted(depth: nat)
    ensures Unquoted(Chars(Indentation(depth)))
  {
    if depth > 0 {
      IndentationIsUnquoted(depth - 1);
    }
  }

  lemma WithoutFrame(depth: nat, markup: seq<Token>)
    requires AllWithout(markup, DEVICE)
    ensures AllWithout(Line(depth, markup), DEVICE)
  {
    hide Unmistakable, Lookup, Indentation;
    IndentationIsUnquoted(depth);
    assert Unquoted(Chars("\n"));
  }

  lemma WithoutLine(depth: nat, t: Token)
    requires !t.Chars? && Without(t, DEVICE)
    ensures AllWithout(Line(depth, [t]), DEVICE)
  {
    hide Unmistakable, Lookup, Line;
    WithoutFrame(depth, [t]);
  }

  lemma WithoutTextLine(depth: nat, name: string, attributes: seq<Attribute>, text: string)
    requires FarFromDevice(attributes) && PlainValue(text)
    ensures AllWithout(Line(depth, TextElement(name, attributes, text)), DEVICE)
  {
    FarTag(name, attributes);
    hide Unmistakable, Lookup, Line;
    WithoutFrame(depth, TextElement(name, attributes, text));
  }

  lemma IdentityWithout(spec: DomainSpec)
    ensures AllWithout(IdentityTokens(spec), DEVICE)
  {
    hide AllWithout, Without, Line, EscapeXml;
    FarTag("domain", [Attribute("type", "kvm")]);
    WithoutLine(0, Open("domain", [Attribute("type", "kvm")]));
    EscapedIsPlain(spec.name);
    WithoutTextLine(1, "name", [], EscapeXml(spec.name));
    var first, second := Line(0, [Open("domain", [Attribute("type", "kvm")])]),
                         Line(1, TextElement("name", [], EscapeXml(spec.name)));
    AllWithoutAppend(first, second, DEVICE);
    if spec.uuid.Some? {
      EscapedIsPlain(spec.uuid.value);
      WithoutTextLine(1, "uuid", [], EscapeXml(spec.uuid.value));
      AllWithoutAppend(first + second, Line(1, TextElement("uuid", [], EscapeXml(spec.uuid.value))), DEVICE);
    } else {
      assert first + second + [] == first + second;
    }
  }

  lemma NumbersWithout(spec: DomainSpec)
    ensures AllWithout(MemoryTokens(spec), DEVICE) && AllWithout(VcpuTokens(spec), DEVICE)
  {
    hide AllWithout, Without, Line, Decimal, PlainValue;
    DecimalLacks(spec.memoryMaxBytes / MIB);
    DecimalLacks(spec.memoryStartBytes / MIB);
    DecimalLacks(spec.vcpus);
    WithoutTextLine(1, "memory", MEMORY_UNIT, Decimal(spec.memoryMaxBytes / MIB));
    WithoutTextLine(1, "currentMemory", MEMORY_UNIT, Decimal(spec.memoryStartBytes / MIB));
    WithoutTextLine(1, "vcpu", VCPU_PLACEMENT, Decimal(spec.vcpus));
    AllWithoutAppend(Line(1, TextElement("memory", MEMORY_UNIT, Decimal(spec.memoryMaxBytes / MIB))),
                     Line(1, TextElement("currentMemory", MEMORY_UNIT, Decimal(spec.memoryStartBytes / MIB))), DEVICE);
  }

  lemma OsTypeWithout()
    ensures AllWithout(Line(2, OsType()), DEVICE)
  {
    hide AllWithout, Without, Line;
    WithoutTextLine(2, "type", OS_TYPE_ATTRIBUTES, "hvm");
  }

  const SECURE_BOOT: seq<Attribute> := [Attribute("enabled", "no"), Attribute("name", "secure-boot")]
  const ENROLLED_KEYS: seq<Attribute> := [Attribute("enabled", "no"), Attribute("name", "enrolled-keys")]

  lemma FeaturesWithout()
    ensures AllWithout(FirmwareFeatures(), DEVICE)
  {
    hide AllWithout, Without, Line;
    BareWithout("firmware");
    FarTag("feature", SECURE_BOOT);
    FarTag("feature", ENROLLED_KEYS);
    var a, b, c, d := Open("firmware", []), Empty("feature", SECURE_BOOT), Empty("feature", ENROLLED_KEYS),
                      Close("firmware");
    WithoutLine(2, a); WithoutLine(3, b); WithoutLine(3, c); WithoutLine(2, d);
    AllWithoutAppend(Line(2, [a]), Line(3, [b]), DEVICE);
    AllWithoutAppend(Line(2, [a]) + Line(3, [b]), Line(3, [c]), DEVICE);
    AllWithoutAppend(Line(2, [a]) + Line(3, [b]) + Line(3, [c]), Line(2, [d]), DEVICE);
  }

  lemma BareWithout(name: string)
    ensures Without(Close(name), DEVICE) && Without(Open(name, []), DEVICE) && Without(Empty(name, []), DEVICE)
  {
  }

  lemma OsOpenWithout(firmware: FirmwareMode)
    ensures Without(OsOpen(firmware), DEVICE) && !OsOpen(firmware).Chars?
  {
    FarTag("os", OsOpen(firmware).attributes);
  }

  lemma OsWithout(firmware: FirmwareMode)
    ensures AllWithout(OsTokens(firmware), DEVICE)
  {
    hide AllWithout, Without, Line, OsType, FirmwareFeatures, OsOpen;
    OsOpenWithout(firmware);
    BareWithout("os");
    WithoutLine(1, OsOpen(firmware));
    WithoutLine(1, Close("os"));
    OsTypeWithout();
    FeaturesWithout();
    var open, kind, close := Line(1, [OsOpen(firmware)]), Line(2, OsType()), Line(1, [Close("os")]);
    OsLines(firmware);
    AllWithoutAppend(open, kind, DEVICE);
    if firmware == Uefi {
      AllWithoutAppend(open + kind, FirmwareFeatures(), DEVICE);
      AllWithoutAppend(open + kind + FirmwareFeatures(), close, DEVICE);
    } else {
      AllWithoutAppend(open + kind, close, DEVICE);
    }
  }

  lemma OsLines(firmware: FirmwareMode)
    ensures firmware == Uefi ==>
              OsTokens(firmware)
              == Line(1, [OsOpen(firmware)]) + Line(2, OsType()) + FirmwareFeatures() + Line(1, [Close("os")])
    ensures firmware == Bios ==>
              OsTokens(firmware) == Line(1, [OsOpen(firmware)]) + Line(2, OsType()) + Line(1, [Close("os")])
  {
    hide Line, OsType;
  }

  lemma PlatformWithout()
    ensures AllWithout(PlatformTokens(), DEVICE)
  {
    hide AllWithout, Without, Line;
    BareWithout("features"); BareWithout("acpi"); BareWithout("apic");
    FarTag("cpu", CPU_MODE);
    var a, b, c, d, e := Open("features", []), Empty("acpi", []), Empty("apic", []), Close("features"),
                         Empty("cpu", CPU_MODE);
    WithoutLine(1, a); WithoutLine(2, b); WithoutLine(2, c); WithoutLine(1, d); WithoutLine(1, e);
    AllWithoutAppend(Line(1, [a]), Line(2, [b]), DEVICE);
    AllWithoutAppend(Line(1, [a]) + Line(2, [b]), Line(2, [c]), DEVICE);
    AllWithoutAppend(Line(1, [a]) + Line(2, [b]) + Line(2, [c]), Line(1, [d]), DEVICE);
    AllWithoutAppend(Line(1, [a]) + Line(2, [b]) + Line(2, [c]) + Line(1, [d]), Line(1, [e]), DEVICE);
  }

  /** Before the disk, no text or attribute could be taken for the mark of a disk. */
  lemma BeforeDiskWithout(spec: DomainSpec)
    ensures AllWithout(BeforeDisk(spec), DEVICE)
  {
    hide AllWithout, Without, Line, Indentation, IdentityTokens, MemoryTokens, VcpuTokens, OsTokens, PlatformTokens;
    IdentityWithout(spec);
    NumbersWithout(spec);
    OsWithout(spec.firmware);
    PlatformWithout();
    BareWithout("devices");
    WithoutLine(1, Open("devices", []));
    var a, b := IdentityTokens(spec) + MemoryTokens(spec), IdentityTokens(spec) + MemoryTokens(spec) + VcpuTokens(spec);
    AllWithoutAppend(IdentityTokens(spec), MemoryTokens(spec), DEVICE);
    AllWithoutAppend(a, VcpuTokens(spec), DEVICE);
    AllWithoutAppend(b, OsTokens(spec.firmware), DEVICE);
    AllWithoutAppend(b + OsTokens(spec.firmware), PlatformTokens(), DEVICE);
    AllWithoutAppend(BeforeDevices(spec), Line(1, [Open("devices", [])]), DEVICE);
    IndentedText(2);
    AllWithoutAppend(Head(spec), [Chars(Indentation(2))], DEVICE);
  }

  lemma IndentedText(depth: nat)
    ensures AllWithout([Chars(Indentation(depth))], DEVICE)
  {
    hide Indentation;
    IndentationIsUnquoted(depth);
  }

  lemma DevicePatterns()
    ensures "device='disk'" == (DEVICE + "='") + "disk'" && "device=\"disk\""[7] == '"'
    ensures PlainName(DEVICE)
  {
    DiskWords();
    WordIsPlain(DEVICE);
  }

  /** Nothing before the disk tag looks like a disk, whatever the name of the domain. */
  lemma FirstSectionIsNoDisk(spec: DomainSpec)
    ensures !DescribesDisk(Print(BeforeDisk(spec)))
  {
    hide Print, Contains, AllWithout, BeforeDisk, PlainName;
    BeforeDiskWithout(spec);
    BeforeDiskIsPlain(spec);
    DevicePatterns();
    MarkerNotPrinted(BeforeDisk(spec), DEVICE);
    AbsentWithPrefix(Print(BeforeDisk(spec)), DEVICE + "='", "disk'");
    PrintedLacksDoubleQuote(BeforeDisk(spec), DEVICE);
    AbsentCharacter(Print(BeforeDisk(spec)), '"', "device=\"disk\"", 7);
  }

  lemma BeforeDiskIsPlain(spec: DomainSpec)
    ensures AllPlain(BeforeDisk(spec))
  {
    hide Head, Indentation;
    HeadIsPlain(spec);
    PlainIndentation(2);
  }

  // ---------------------------------------------------------------- splitting at the disk tag

  const DISK_PATTERN: string := "disk "
  const AFTER_PATTERN: string := "type='file' device='disk'>"

  lemma ShowTwoAttributes(name: string, a: Attribute, b: Attribute)
    ensures Show(Open(name, [a, b]))
         == "<" + name + (" " + a.name + "='" + a.value + "'" + (" " + b.name + "='" + b.value + "'")) + ">"
  {
    ShowPrepended(b, []);
    ShowPrepended(a, [b]);
    assert [b] + [] == [b] && [a] + [b] == [a, b];
    assert ShowAttributes([]) == "";
    assert " " + b.name + "='" + b.value + "'" + "" == " " + b.name + "='" + b.value + "'";
  }

  lemma DiskTagLiterals()
    ensures " " + "type" + "='" + "file" + "'" + (" " + "device" + "='" + "disk" + "'") + ">" == " " + AFTER_PATTERN
    ensures "<" + "disk" + " " == "<" + DISK_PATTERN == "<disk " && DISK_PATTERN != ""
    ensures TagPattern(DISK_PATTERN) && Plain(Chars(AFTER_PATTERN))
  {
    DiskTagPatterns();
    hide TagPattern, Plain;
  }

  lemma DiskTagPatterns()
    ensures TagPattern(DISK_PATTERN) && Plain(Chars(AFTER_PATTERN))
  {
  }

  lemma RegroupTag(lead: string, attributes: string, end: string, more: string)
    requires attributes + end == " " + more
    ensures lead + attributes + end == (lead + " ") + more
  {
    assert lead + attributes + end == lead + (attributes + end);
  }

  lemma DiskTagText()
    ensures Show(DISK_OPEN) == "<" + DISK_PATTERN + AFTER_PATTERN
  {
    hide Show;
    ShowTwoAttributes("disk", Attribute("type", "file"), Attribute("device", "disk"));
    DiskTagLiterals();
    RegroupTag("<" + "disk", " " + "type" + "='" + "file" + "'" + (" " + "device" + "='" + "disk" + "'"), ">",
               AFTER_PATTERN);
  }

  lemma SecondSectionIsDisk(rest: string)
    ensures DescribesDisk(AFTER_PATTERN + rest)
  {
    var s := AFTER_PATTERN + rest;
    assert s[12..25] == "device='disk'";
    assert OccursAt(s, "device='disk'", 12);
    FindIsFirst(s, "device='disk'");
  }

  /** Splitting printed tokens at their only tag of a pattern. */
  lemma SplitAtTag(before: seq<Token>, tag: Token, after: seq<Token>, q: string, more: string)
    requires AllPlain(before) && Plain(tag) && AllPlain(after) && TagPattern(q)
    requires NoTag(before, q) && StartsTag(tag, q) && NoTag(after, q)
    requires Show(tag) == "<" + q + more && Plain(Chars(more))
    ensures Split(Print(before + [tag] + after), "<" + q) == [Print(before), more + Print(after)]
  {
    hide Find, Print, StartsTag, Show, TagPattern, Plain;
    var ts, p := before + [tag] + after, "<" + q;
    var s := Print(ts);
    assert ts == before + ([tag] + after);
    FirstTag(before, tag, after, q);
    PrintCons(tag, after);
    var from := p + more + Print(after);
    assert s[|Print(before)|..] == from;
    assert s[|Print(before)| + |p|..] == more + Print(after) by {
      assert s[|Print(before)|..][|p|..] == s[|Print(before)| + |p|..];
      assert from[|p|..] == more + Print(after);
    }
    NoMoreTags(more, after, q);
    assert Split(more + Print(after), p) == [more + Print(after)];
  }

  lemma NoMoreTags(more: string, after: seq<Token>, q: string)
    requires Plain(Chars(more)) && AllPlain(after) && TagPattern(q) && NoTag(after, q)
    ensures Find(more + Print(after), "<" + q) == None
  {
    hide Find, Print, Plain, TagPattern;
    var ts := [Chars(more)] + after;
    PrintCons(Chars(more), after);
    assert forall i :: 0 < i < |ts| ==> ts[i] == after[i - 1];
    assert NoTag(ts, q);
    DropPast(ts, [], q);
    assert ts + [] == ts;
    FindTag(ts, q);
  }

  lemma DiskPatternIsLonger()
    ensures StartsTag(DISK_OPEN, DISK_PATTERN)
    ensures forall t :: StartsTag(t, DISK_PATTERN) ==> StartsTag(t, "disk")
  {
    hide Inside;
    DiskTagText();
    assert Inside(DISK_OPEN) + ">" == Show(DISK_OPEN)[1..] == DISK_PATTERN + AFTER_PATTERN;
    assert (DISK_PATTERN + AFTER_PATTERN)[..5] == DISK_PATTERN;
    forall t | StartsTag(t, DISK_PATTERN) ensures StartsTag(t, "disk") {
      assert (Inside(t) + ">")[..5][..4] == (Inside(t) + ">")[..4];
    }
  }

  lemma NoDiskTag(ts: seq<Token>)
    requires NoTag(ts, "disk")
    ensures NoTag(ts, DISK_PATTERN)
  {
    hide StartsTag;
    DiskPatternIsLonger();
  }

  /** The disk tag is the only one in the document. */
  lemma OnlyDiskTag(spec: DomainSpec, path: string)
    requires PlainChannels(spec.channels)
    ensures NoTag(BeforeDisk(spec), DISK_PATTERN) && NoTag(AfterDisk(spec, path), DISK_PATTERN)
  {
    hide StartsTag, Head, Tail, DiskBody, Line, InterfacesTokens, ChannelsTokens, DisplayTokens, Indentation, Distinct,
         PlainName, Plain, Tags, HeadAvoids, InterfaceAvoids, ChannelAvoids, DisplayAvoids;
    AvoidedDisk();
    HeadPartAvoids(spec, "disk");
    TextStartsNoTag(Indentation(2), "disk");
    NoDiskTag(BeforeDisk(spec));
    TextStartsNoTag("\n", "disk");
    DiskBodyAvoids(path);
    InterfacesAvoid(spec.networkInterfaces, "disk");
    ChannelsAvoid(spec.channels, "disk");
    DisplayPartAvoids("disk");
    TailPartAvoids("disk");
    NoDiskTag(AfterDisk(spec, path));
  }

  lemma DiskBodyDistinct(path: string)
    ensures Distinct("driver", "disk") && Distinct("source", "disk") && Distinct("target", "disk")
  {
  }

  lemma DiskBodyAvoids(path: string)
    ensures NoTag(DiskBody(path), "disk") && NoTag(Line(2, [Close("disk")]), "disk")
  {
    hide StartsTag, DiskBody, Line, Distinct, PlainName, Plain, Tags, HeadAvoids, InterfaceAvoids, ChannelAvoids,
         DisplayAvoids;
    AvoidedDisk();
    DiskBodyDistinct(path);
    DiskPart(path);
    NamesAvoid(DiskBody(path), "disk");
    ClosesPlainly(DISK_OPEN);
    TagLine(2, Close("disk"));
    NamesAvoid(Line(2, [Close("disk")]), "disk");
  }

  lemma AfterDiskIsPlain(spec: DomainSpec, path: string)
    requires PlainChannels(spec.channels)
    ensures AllPlain(AfterDisk(spec, path)) && Plain(DISK_OPEN)
  {
    hide Plain, DocumentTokens, AfterDisk, BeforeDisk;
    DocumentIsPlain(spec, path);
    DiskInDocument(spec, path);
    var ts := BeforeDisk(spec) + [DISK_OPEN] + AfterDisk(spec, path);
    assert ts[|BeforeDisk(spec)|] == DISK_OPEN;
    forall i | 0 <= i < |AfterDisk(spec, path)| ensures Plain(AfterDisk(spec, path)[i]) {
      assert ts[|BeforeDisk(spec)| + 1 + i] == AfterDisk(spec, path)[i];
    }
  }

  /** The tags of the second section begin with the driver's and the source's. */
  lemma SourceOfSection(spec: DomainSpec, path: string)
    ensures var tags := Tags([Chars(AFTER_PATTERN)] + AfterDisk(spec, path));
            |tags| >= 2 && tags[0] == DISK_DRIVER && tags[1] == DiskSource(path)
  {
    hide Tags, DiskBody, Line, InterfacesTokens, ChannelsTokens, DisplayTokens, Tail, Plain, EscapeXml;
    var rest := Line(2, [Close("disk")]) + InterfacesTokens(spec.networkInterfaces) + ChannelsTokens(spec.channels)
                + DisplayTokens() + Tail();
    var body := [Chars("\n")] + DiskBody(path);
    assert AfterDisk(spec, path) == body + rest;
    DiskPart(path);
    TagsCons(Chars(AFTER_PATTERN), AfterDisk(spec, path));
    TagsAppend(body, rest);
    TagsCons(Chars("\n"), DiskBody(path));
  }

  /**
   The disk path scanner finds the disk of every rendered document, whatever the domain's name, and
   returns its path in escaped form; the path itself exactly when it has nothing to escape.
   */
  lemma RenderedDiskPath(spec: DomainSpec, xml: string)
    requires RenderXml(spec) == Success(xml)
    ensures |spec.disks| == 1
    ensures DomainDiskPath(xml) == Some(EscapeXml(spec.disks[0].sourceFile))
    ensures DomainDiskPath(xml) == Some(spec.disks[0].sourceFile) <==> Unspecial(spec.disks[0].sourceFile)
  {
    hide Print, Plain, RenderXml, DocumentTokens, AfterDisk, BeforeDisk, EscapeXml, Unspecial, Split, XmlAttribute,
         DescribesDisk, StartsTag, TagPattern, PlainChannels, QuietSources, Tags, Unmistakable, Lookup, PlainName;
    RenderedIsValid(spec, xml);
    ValidSources(spec);
    var path := spec.disks[0].sourceFile;
    DiskSection(spec, path);
    FirstSectionIsNoDisk(spec);
    SecondSectionIsDisk(Print(AfterDisk(spec, path)));
    SectionPath(spec, path);
    SecondOfTwo(Print(BeforeDisk(spec)), AFTER_PATTERN + Print(AfterDisk(spec, path)));
    EscapeChangesNothingIff(path);
  }

  lemma SecondOfTwo(first: string, second: string)
    requires !DescribesDisk(first) && DescribesDisk(second)
    ensures FirstDiskSection([first, second]) == Some(second)
  {
    hide DescribesDisk;
    assert [first, second][1..] == [second];
  }

  lemma DiskSection(spec: DomainSpec, path: string)
    requires PlainChannels(spec.channels)
    ensures Split(Print(DocumentTokens(spec, path)), "<disk ")
         == [Print(BeforeDisk(spec)), AFTER_PATTERN + Print(AfterDisk(spec, path))]
  {
    hide Print, Plain, DocumentTokens, AfterDisk, BeforeDisk, Split, StartsTag, TagPattern;
    DiskInDocument(spec, path);
    BeforeDiskIsPlain(spec);
    AfterDiskIsPlain(spec, path);
    OnlyDiskTag(spec, path);
    DiskPatternIsLonger();
    DiskTagLiterals();
    DiskTagText();
    SplitAtTag(BeforeDisk(spec), DISK_OPEN, AfterDisk(spec, path), DISK_PATTERN, AFTER_PATTERN);
  }

  lemma SectionPath(spec: DomainSpec, path: string)
    requires PlainChannels(spec.channels)
    ensures XmlAttribute(AFTER_PATTERN + Print(AfterDisk(spec, path)), "source", "file") == Some(EscapeXml(path))
  {
    hide Print, Plain, AfterDisk, EscapeXml, XmlAttribute, Tags, Unmistakable, Lookup, PlainName;
    var ts := [Chars(AFTER_PATTERN)] + AfterDisk(spec, path);
    AfterDiskIsPlain(spec, path);
    DiskTagLiterals();
    PrintCons(Chars(AFTER_PATTERN), AfterDisk(spec, path));
    SourceOfSection(spec, path);
    DiskKeys();
    DiskSourceIsClear(path);
    ReadsTag(ts, 1, "source", "file");
  }

  /** After a successful replacement the scanner finds the new path. */
  lemma ReplacedDiskPath(spec: DomainSpec, xml: string, newPath: string, changed: string)
    requires RenderXml(spec) == Success(xml) && |spec.disks| == 1
    requires Unspecial(spec.disks[0].sourceFile) && Unspecial(newPath) && StartsWith(newPath, "/")
    requires ReplaceDomainDisk(xml, spec.disks[0].sourceFile, newPath) == Success(changed)
    ensures DomainDiskPath(changed) == Some(newPath)
  {
    hide RenderXml, Unspecial, StartsWith, ReplaceDomainDisk, DomainDiskPath, EscapeXml;
    ReplacementIsRendering(spec, xml, newPath, changed);
    RenderedDiskPath(WithPath(spec, newPath), changed);
  }

  // ---------------------------------------------------------------- sections of any text

  /** The section says in quotes of either kind that it is about a disk. */
  ghost predicate SaysDisk(section: string) {
    || (exists j :: OccursAt(section, "device='disk'", j))
    || (exists j :: OccursAt(section, "device=\"disk\"", j))
  }

  lemma DescribesDiskIff(section: string)
    ensures DescribesDisk(section) <==> SaysDisk(section)
  {
    hide Find, OccursAt;
    FindIsFirst(section, "device='disk'");
    FindIsFirst(section, "device=\"disk\"");
  }

  /** The first section about a disk is taken, and only if there is none is there no path. */
  lemma {:induction false} FirstSectionIff(sections: seq<string>)
    ensures forall i :: 0 <= i < |sections| && SaysDisk(sections[i])
                     && (forall j :: 0 <= j < i ==> !SaysDisk(sections[j]))
              ==> FirstDiskSection(sections) == Some(sections[i])
    ensures FirstDiskSection(sections) == None <==> forall i :: 0 <= i < |sections| ==> !SaysDisk(sections[i])
  {
    hide SaysDisk, DescribesDisk;
    if sections != [] {
      DescribesDiskIff(sections[0]);
      FirstSectionIff(sections[1..]);
      assert forall i :: 0 < i < |sections| ==> sections[i] == sections[1..][i - 1];
    }
  }
}
