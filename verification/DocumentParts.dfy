/** Each part of a printed domain document: its tags, and that it is plain printed markup. */
module DocumentParts {
  import opened Results
  import opened Text
  import opened Markup
  import opened Escaping
  import opened DomainXml
  import opened DocumentShape

  // ---------------------------------------------------------------- the vocabulary

  predicate WordCharacter(c: char) {
    'a' <= c <= 'z' || 'A' <= c <= 'Z' || '0' <= c <= '9' || c == '.' || c == '-' || c == '_'
  }

  /** A nonempty run of letters, digits, dots, dashes and underscores. */
  predicate Word(s: string) {
    s != "" && forall i :: 0 <= i < |s| ==> WordCharacter(s[i])
  }

  lemma WordIsPlain(s: string)
    requires Word(s)
    ensures PlainName(s) && PlainValue(s) && s[|s| - 1] != '='
  {
    forall i | 0 <= i < |s| ensures !IsWhitespace(s[i]) && WordCharacter(s[i]) {
      assert WordCharacter(s[i]);
    }
  }

  lemma HeadWords()
    ensures Word("domain") && Word("name") && Word("uuid") && Word("memory") && Word("currentMemory") && Word("vcpu")
    ensures Word("type") && Word("kvm") && Word("unit") && Word("MiB") && Word("placement") && Word("static")
  {
  }

  lemma OsWords()
    ensures Word("os") && Word("firmware") && Word("efi") && Word("arch") && Word("x86_64") && Word("machine")
    ensures Word("q35")
    ensures Word("feature") && Word("enabled") && Word("no") && Word("secure-boot") && Word("enrolled-keys")
  {
  }

  lemma PlatformWords()
    ensures Word("features") && Word("acpi") && Word("apic") && Word("cpu") && Word("mode") && Word("host-passthrough")
    ensures Word("devices") && Word("loader") && Word("graphics") && Word("spice") && Word("autoport") && Word("yes")
  {
  }

  lemma DiskWords()
    ensures Word("disk") && Word("device") && Word("file") && Word("driver") && Word("qemu") && Word("qcow2")
    ensures Word("source")
    ensures Word("target") && Word("dev") && Word("vda") && Word("bus") && Word("virtio") && Word("readonly")
  {
  }

  lemma InterfaceWords()
    ensures Word("interface") && Word("network") && Word("user") && Word("udp") && Word("model") && Word("backend")
    ensures Word("passt") && Word("address") && Word("127.0.0.1") && Word("port") && Word("local") && Word("mac")
  {
  }

  lemma DeviceWords()
    ensures Word("channel") && Word("unix") && Word("org.qemu.guest_agent.0") && Word("video")
    ensures Word("heads") && Word("1")
    ensures Word("primary") && Word("hostdev") && Word("filesystem") && Word("bridge") && Word("path")
  {
  }

  lemma PlainWords(words: seq<string>)
    requires forall i :: 0 <= i < |words| ==> Word(words[i])
    ensures forall i :: 0 <= i < |words| ==> PlainName(words[i]) && PlainValue(words[i])
  {
    forall i | 0 <= i < |words| ensures PlainName(words[i]) && PlainValue(words[i]) {
      WordIsPlain(words[i]);
    }
  }

  lemma WordAttribute(name: string, value: string)
    requires Word(name) && Word(value)
    ensures PlainName(name) && PlainValue(value)
  {
    WordIsPlain(name);
    WordIsPlain(value);
  }

  lemma PlainDecimal(n: nat)
    ensures Word(Decimal(n))
  {
    hide Decimal;
    DecimalIsDigits(n);
  }

  // ---------------------------------------------------------------- lines

  lemma PlainLine(depth: nat, t: Token)
    requires Plain(t)
    ensures AllPlain(Line(depth, [t]))
  {
    hide Plain;
    PlainIndentation(depth);
    assert Plain(Chars(Indentation(depth))) && Plain(Chars("\n")) by { PlainSpace(depth); }
  }

  lemma PlainSpace(depth: nat)
    ensures Plain(Chars(Indentation(depth))) && Plain(Chars("\n"))
  {
    PlainIndentation(depth);
  }

  lemma PlainTextLine(depth: nat, name: string, attributes: seq<Attribute>, text: string)
    requires PlainName(name) && PlainAttributes(attributes) && Lacks(text, '<')
    ensures AllPlain(Line(depth, TextElement(name, attributes, text)))
  {
    hide PlainName, PlainAttributes;
    PlainSpace(depth);
  }

  /** A line of one tag: plain, and that tag is all the markup in it. */
  lemma TagLine(depth: nat, t: Token)
    requires Plain(t) && !t.Chars?
    ensures AllPlain(Line(depth, [t])) && Tags(Line(depth, [t])) == [t]
  {
    hide Plain, Tags, Line;
    PlainLine(depth, t);
    TagOfLine(depth, t);
  }

  lemma TextLine(depth: nat, name: string, attributes: seq<Attribute>, text: string)
    requires PlainName(name) && PlainAttributes(attributes) && Lacks(text, '<')
    ensures AllPlain(Line(depth, TextElement(name, attributes, text)))
    ensures Tags(Line(depth, TextElement(name, attributes, text))) == [Open(name, attributes), Close(name)]
  {
    hide PlainName, PlainAttributes, Tags, Line;
    PlainTextLine(depth, name, attributes, text);
    TagsOfTextLine(depth, name, attributes, text);
  }

  lemma PlainTag(name: string, attributes: seq<Attribute>)
    requires PlainName(name) && PlainAttributes(attributes)
    ensures Plain(Open(name, attributes)) && Plain(Empty(name, attributes)) && Plain(Close(name))
  {
  }

  // ---------------------------------------------------------------- the parts

  function IdentityTags(spec: DomainSpec): seq<Token> {
    [Open("domain", [Attribute("type", "kvm")]), Open("name", []), Close("name")]
    + if spec.uuid.Some? then [Open("uuid", []), Close("uuid")] else []
  }

  lemma IdentityPart(spec: DomainSpec)
    ensures AllPlain(IdentityTokens(spec)) && Tags(IdentityTokens(spec)) == IdentityTags(spec)
  {
    hide Word, Plain, PlainName, PlainValue, Tags, Line, EscapeXml, TextElement;
    HeadWords();
    WordIsPlain("domain"); WordIsPlain("name"); WordIsPlain("uuid"); WordAttribute("type", "kvm");
    PlainTag("domain", [Attribute("type", "kvm")]);
    TagLine(0, Open("domain", [Attribute("type", "kvm")]));
    EscapedLacks(spec.name);
    TextLine(1, "name", [], EscapeXml(spec.name));
    var first, second := Line(0, [Open("domain", [Attribute("type", "kvm")])]),
                         Line(1, TextElement("name", [], EscapeXml(spec.name)));
    TagsAppend(first, second);
    if spec.uuid.Some? {
      EscapedLacks(spec.uuid.value);
      TextLine(1, "uuid", [], EscapeXml(spec.uuid.value));
      TagsAppend(first + second, Line(1, TextElement("uuid", [], EscapeXml(spec.uuid.value))));
    } else {
      assert first + second + [] == first + second;
    }
  }

  lemma EscapedLacks(s: string)
    ensures Lacks(EscapeXml(s), '<') && PlainValue(EscapeXml(s))
  {
    EscapedIsPlain(s);
  }

  lemma DecimalLacks(n: nat)
    ensures Lacks(Decimal(n), '<') && PlainValue(Decimal(n))
  {
    PlainDecimal(n);
    WordIsPlain(Decimal(n));
  }

  const MEMORY_UNIT: seq<Attribute> := [Attribute("unit", "MiB")]
  const VCPU_PLACEMENT: seq<Attribute> := [Attribute("placement", "static")]

  lemma MemoryPart(spec: DomainSpec)
    ensures AllPlain(MemoryTokens(spec))
    ensures Tags(MemoryTokens(spec))
         == [Open("memory", MEMORY_UNIT), Close("memory"), Open("currentMemory", MEMORY_UNIT), Close("currentMemory")]
  {
    hide Word, Plain, PlainName, PlainValue, Tags, Line, Decimal, TextElement;
    HeadWords();
    WordIsPlain("memory"); WordIsPlain("currentMemory"); WordAttribute("unit", "MiB");
    DecimalLacks(spec.memoryMaxBytes / MIB);
    DecimalLacks(spec.memoryStartBytes / MIB);
    TextLine(1, "memory", MEMORY_UNIT, Decimal(spec.memoryMaxBytes / MIB));
    TextLine(1, "currentMemory", MEMORY_UNIT, Decimal(spec.memoryStartBytes / MIB));
    TagsAppend(Line(1, TextElement("memory", MEMORY_UNIT, Decimal(spec.memoryMaxBytes / MIB))),
               Line(1, TextElement("currentMemory", MEMORY_UNIT, Decimal(spec.memoryStartBytes / MIB))));
  }

  lemma VcpuPart(spec: DomainSpec)
    ensures AllPlain(VcpuTokens(spec)) && Tags(VcpuTokens(spec)) == [Open("vcpu", VCPU_PLACEMENT), Close("vcpu")]
  {
    hide Word, Plain, PlainName, PlainValue, Tags, Line, Decimal, TextElement;
    HeadWords();
    WordIsPlain("vcpu"); WordAttribute("placement", "static");
    DecimalLacks(spec.vcpus);
    TextLine(1, "vcpu", VCPU_PLACEMENT, Decimal(spec.vcpus));
  }

  const OS_TYPE_ATTRIBUTES: seq<Attribute> := [Attribute("arch", "x86_64"), Attribute("machine", "q35")]

  function OsOpen(firmware: FirmwareMode): Token {
    Open("os", if firmware == Uefi then [Attribute("firmware", "efi")] else [])
  }

  function OsBody(firmware: FirmwareMode): seq<Token> {
    match firmware
    case Uefi =>
      Line(2, OsType())
      + Line(2, [Open("firmware", [])])
      + Line(3, [Empty("feature", [Attribute("enabled", "no"), Attribute("name", "secure-boot")])])
      + Line(3, [Empty("feature", [Attribute("enabled", "no"), Attribute("name", "enrolled-keys")])])
      + Line(2, [Close("firmware")])
    case Bios => Line(2, OsType())
  }

  function OsBodyTags(firmware: FirmwareMode): seq<Token> {
    match firmware
    case Uefi =>
      [Open("type", OS_TYPE_ATTRIBUTES), Close("type"), Open("firmware", []),
       Empty("feature", [Attribute("enabled", "no"), Attribute("name", "secure-boot")]),
       Empty("feature", [Attribute("enabled", "no"), Attribute("name", "enrolled-keys")]),
       Close("firmware")]
    case Bios => [Open("type", OS_TYPE_ATTRIBUTES), Close("type")]
  }

  lemma OsIsFramed(firmware: FirmwareMode)
    ensures OsTokens(firmware) == Framed(1, OsOpen(firmware), OsBody(firmware))
  {
    hide Line;
  }

  lemma OsPart(firmware: FirmwareMode)
    ensures AllPlain(OsBody(firmware)) && Tags(OsBody(firmware)) == OsBodyTags(firmware)
    ensures Plain(OsOpen(firmware))
  {
    hide Word, Plain, PlainName, PlainValue, Tags, Line, TextElement;
    HeadWords();
    OsWords();
    WordIsPlain("os"); WordIsPlain("type"); WordIsPlain("firmware"); WordIsPlain("feature");
    WordAttribute("firmware", "efi"); WordAttribute("arch", "x86_64"); WordAttribute("machine", "q35");
    PlainTag("os", OsOpen(firmware).attributes);
    HvmText();
    TextLine(2, "type", OS_TYPE_ATTRIBUTES, "hvm");
    if firmware == Uefi {
      FirmwareLines();
      TagsAppend(Line(2, OsType()), FirmwareFeatures());
      assert OsBody(firmware) == Line(2, OsType()) + FirmwareFeatures();
    }
  }

  lemma HvmText()
    ensures Lacks("hvm", '<')
  {
  }

  function FirmwareFeatures(): seq<Token> {
    Line(2, [Open("firmware", [])])
    + Line(3, [Empty("feature", [Attribute("enabled", "no"), Attribute("name", "secure-boot")])])
    + Line(3, [Empty("feature", [Attribute("enabled", "no"), Attribute("name", "enrolled-keys")])])
    + Line(2, [Close("firmware")])
  }

  lemma FirmwareLines()
    ensures AllPlain(FirmwareFeatures())
    ensures Tags(FirmwareFeatures()) == OsBodyTags(Uefi)[2..]
  {
    hide Word, Plain, PlainName, PlainValue, Tags, Line;
    HeadWords();
    OsWords();
    WordIsPlain("firmware"); WordIsPlain("feature"); WordAttribute("enabled", "no");
    WordAttribute("name", "secure-boot"); WordAttribute("name", "enrolled-keys");
    var a := Open("firmware", []);
    var b := Empty("feature", [Attribute("enabled", "no"), Attribute("name", "secure-boot")]);
    var c := Empty("feature", [Attribute("enabled", "no"), Attribute("name", "enrolled-keys")]);
    var d := Close("firmware");
    PlainTag("firmware", []); PlainTag("feature", b.attributes); PlainTag("feature", c.attributes);
    TagLine(2, a); TagLine(3, b); TagLine(3, c); TagLine(2, d);
    TagsAppend3(Line(2, [a]), Line(3, [b]), Line(3, [c]));
    TagsAppend(Line(2, [a]) + Line(3, [b]) + Line(3, [c]), Line(2, [d]));
  }

  const CPU_MODE: seq<Attribute> := [Attribute("mode", "host-passthrough")]

  lemma PlatformPart()
    ensures AllPlain(PlatformTokens())
    ensures Tags(PlatformTokens())
         == [Open("features", []), Empty("acpi", []), Empty("apic", []), Close("features"), Empty("cpu", CPU_MODE)]
  {
    hide Word, Plain, PlainName, PlainValue, Tags, Line;
    PlatformWords();
    WordIsPlain("features"); WordIsPlain("acpi"); WordIsPlain("apic"); WordIsPlain("cpu");
    WordAttribute("mode", "host-passthrough");
    PlainTag("features", []); PlainTag("acpi", []); PlainTag("apic", []); PlainTag("cpu", CPU_MODE);
    var a, b, c, d, e := Open("features", []), Empty("acpi", []), Empty("apic", []), Close("features"),
                         Empty("cpu", CPU_MODE);
    TagLine(1, a); TagLine(2, b); TagLine(2, c); TagLine(1, d); TagLine(1, e);
    TagsAppend3(Line(1, [a]), Line(2, [b]), Line(2, [c]));
    TagsAppend3(Line(1, [a]) + Line(2, [b]) + Line(2, [c]), Line(1, [d]), Line(1, [e]));
  }

  const DISK_OPEN: Token := Open("disk", [Attribute("type", "file"), Attribute("device", "disk")])
  const DISK_DRIVER: Token := Empty("driver", [Attribute("name", "qemu"), Attribute("type", "qcow2")])
  const DISK_TARGET: Token := Empty("target", [Attribute("dev", "vda"), Attribute("bus", "virtio")])

  function DiskSource(path: string): Token {
    Empty("source", [Attribute("file", EscapeXml(path))])
  }

  function DiskBody(path: string): seq<Token> {
    Line(3, [DISK_DRIVER]) + Line(3, [DiskSource(path)]) + Line(3, [DISK_TARGET])
  }

  lemma DiskIsFramed(path: string)
    ensures DiskTokens(path) == Framed(2, DISK_OPEN, DiskBody(path))
  {
    hide Line;
  }

  lemma DiskPart(path: string)
    ensures Plain(DISK_OPEN) && AllPlain(DiskBody(path))
    ensures Tags(DiskBody(path)) == [DISK_DRIVER, DiskSource(path), DISK_TARGET]
  {
    hide Word, Plain, PlainName, PlainValue, Tags, Line, EscapeXml;
    HeadWords();
    DiskWords();
    WordIsPlain("disk"); WordIsPlain("driver"); WordIsPlain("source"); WordIsPlain("target"); WordIsPlain("file");
    WordAttribute("type", "file"); WordAttribute("device", "disk"); WordAttribute("name", "qemu");
    WordAttribute("type", "qcow2");
    WordAttribute("dev", "vda"); WordAttribute("bus", "virtio");
    EscapedLacks(path);
    PlainTag("disk", DISK_OPEN.attributes); PlainTag("driver", DISK_DRIVER.attributes);
    PlainTag("source", DiskSource(path).attributes); PlainTag("target", DISK_TARGET.attributes);
    TagLine(3, DISK_DRIVER); TagLine(3, DiskSource(path)); TagLine(3, DISK_TARGET);
    TagsAppend3(Line(3, [DISK_DRIVER]), Line(3, [DiskSource(path)]), Line(3, [DISK_TARGET]));
  }

  function InterfaceOpen(network: InterfaceSpec): Token {
    Open("interface", [Attribute("type", InterfaceKind(network))])
  }

  const INTERFACE_MODEL: Token := Empty("model", [Attribute("type", "virtio")])
  const PASST: Token := Empty("backend", [Attribute("type", "passt")])

  function NetworkSource(source: string): Token {
    Empty("source", [Attribute("network", EscapeXml(source))])
  }

  function LinkSource(link: Link): Token {
    Open("source", [Attribute("address", "127.0.0.1"), Attribute("port", Decimal(link.remotePort))])
  }

  function LinkLocal(link: Link): Token {
    Empty("local", [Attribute("address", "127.0.0.1"), Attribute("port", Decimal(link.localPort))])
  }

  function InterfaceBodyTags(network: InterfaceSpec): seq<Token> {
    match network
    case LibvirtNetwork(_, source) => [NetworkSource(source), INTERFACE_MODEL]
    case PasstUplink => [PASST, INTERFACE_MODEL]
    case UdpPointToPoint(link) => [LinkSource(link), LinkLocal(link), Close("source"), INTERFACE_MODEL]
  }

  lemma InterfacePart(network: InterfaceSpec)
    ensures InterfaceTokens(network) == Framed(2, InterfaceOpen(network), InterfaceBody(network))
    ensures Plain(InterfaceOpen(network)) && AllPlain(InterfaceBody(network))
    ensures Tags(InterfaceBody(network)) == InterfaceBodyTags(network)
  {
    hide Word, Plain, PlainName, PlainValue, Tags, Line, EscapeXml, Decimal;
    HeadWords();
    DiskWords();
    InterfaceWords();
    WordIsPlain("interface"); WordIsPlain("model"); WordIsPlain("source");
    WordAttribute("type", InterfaceKind(network)); WordAttribute("type", "virtio");
    PlainTag("interface", InterfaceOpen(network).attributes); PlainTag("model", INTERFACE_MODEL.attributes);
    TagLine(3, INTERFACE_MODEL);
    match network
    case LibvirtNetwork(_, source) =>
      WordIsPlain("network");
      EscapedLacks(source);
      PlainTag("source", NetworkSource(source).attributes);
      TagLine(3, NetworkSource(source));
      TagsAppend(Line(3, [NetworkSource(source)]), VirtioModel());
    case PasstUplink =>
      WordIsPlain("backend"); WordAttribute("type", "passt");
      PlainTag("backend", PASST.attributes);
      TagLine(3, PASST);
      TagsAppend(Line(3, [PASST]), VirtioModel());
    case UdpPointToPoint(link) =>
      LinkPart(link);
      TagsAppend(LinkTokens(link), VirtioModel());
  }

  lemma LinkPart(link: Link)
    ensures AllPlain(LinkTokens(link)) && Tags(LinkTokens(link)) == [LinkSource(link), LinkLocal(link), Close("source")]
  {
    hide Word, Plain, PlainName, PlainValue, Tags, Line, Decimal;
    DiskWords();
    InterfaceWords();
    WordIsPlain("source"); WordIsPlain("local"); WordIsPlain("port"); WordAttribute("address", "127.0.0.1");
    DecimalLacks(link.remotePort);
    DecimalLacks(link.localPort);
    PlainTag("source", LinkSource(link).attributes); PlainTag("local", LinkLocal(link).attributes);
    TagLine(3, LinkSource(link)); TagLine(4, LinkLocal(link)); TagLine(3, Close("source"));
    TagsAppend3(Line(3, [LinkSource(link)]), Line(4, [LinkLocal(link)]), Line(3, [Close("source")]));
  }

  const CHANNEL_OPEN: Token := Open("channel", [Attribute("type", "unix")])

  function ChannelTarget(name: string): Token {
    Empty("target", [Attribute("type", "virtio"), Attribute("name", name)])
  }

  lemma ChannelPart(name: string)
    requires PlainValue(name)
    ensures ChannelTokens(ChannelSpec(name)) == Framed(2, CHANNEL_OPEN, Line(3, [ChannelTarget(name)]))
    ensures Plain(CHANNEL_OPEN) && AllPlain(Line(3, [ChannelTarget(name)]))
    ensures Tags(Line(3, [ChannelTarget(name)])) == [ChannelTarget(name)]
  {
    hide Word, Plain, PlainName, PlainValue, Tags, Line;
    HeadWords();
    DiskWords();
    DeviceWords();
    WordIsPlain("channel"); WordIsPlain("target"); WordAttribute("type", "unix"); WordAttribute("type", "virtio");
    WordIsPlain("name");
    PlainTag("channel", CHANNEL_OPEN.attributes); PlainTag("target", ChannelTarget(name).attributes);
    TagLine(3, ChannelTarget(name));
  }

  const GRAPHICS: Token := Empty("graphics", [Attribute("type", "spice"), Attribute("autoport", "yes")])
  const VIDEO_MODEL: Token :=
    Empty("model", [Attribute("type", "virtio"), Attribute("heads", "1"), Attribute("primary", "yes")])

  lemma DisplayPart()
    ensures AllPlain(DisplayTokens())
    ensures Tags(DisplayTokens()) == [GRAPHICS, Open("video", []), VIDEO_MODEL, Close("video")]
  {
    hide Word, Plain, PlainName, PlainValue, Tags, Line;
    HeadWords();
    PlatformWords();
    DiskWords();
    InterfaceWords();
    DeviceWords();
    WordIsPlain("graphics"); WordIsPlain("video"); WordIsPlain("model");
    WordAttribute("type", "spice"); WordAttribute("autoport", "yes"); WordAttribute("type", "virtio");
    WordAttribute("heads", "1"); WordAttribute("primary", "yes");
    PlainTag("graphics", GRAPHICS.attributes); PlainTag("video", []); PlainTag("model", VIDEO_MODEL.attributes);
    var open, close := Open("video", []), Close("video");
    TagLine(2, GRAPHICS); TagLine(2, open); TagLine(3, VIDEO_MODEL); TagLine(2, close);
    TagsAppend3(Line(2, [GRAPHICS]), Line(2, [open]), Line(3, [VIDEO_MODEL]));
    TagsAppend(Line(2, [GRAPHICS]) + Line(2, [open]) + Line(3, [VIDEO_MODEL]), Line(2, [close]));
  }
}
