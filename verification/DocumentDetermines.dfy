/** Rendering is injective: the text of a document determines everything about the domain that is printed. */
module DocumentDetermines {
  import opened Results
  import opened Sequences
  import opened Text
  import opened Markup
  import opened ScannerTheorems
  import opened Escaping
  import opened DomainXml
  import opened DocumentShape
  import opened DocumentParts
  import opened DocumentBlocks
  import opened TopologyTheorem
  import opened PrintedTags

  // ---------------------------------------------------------------- values

  lemma EscapedDetermined(a: string, b: string)
    requires EscapeXml(a) == EscapeXml(b)
    ensures a == b
  {
    hide EscapeXml;
    DecodeEscaped(a);
    DecodeEscaped(b);
  }

  lemma DecimalDetermined(a: nat, b: nat)
    requires Decimal(a) == Decimal(b)
    ensures a == b
  {
    hide Decimal;
    DigitsOfDecimal(a);
    DigitsOfDecimal(b);
  }

  /** Aligned memory sizes are determined by their number of mebibytes. */
  lemma MemoryDetermined(a: nat, b: nat)
    requires a % MEMORY_STEP_BYTES == 0 && b % MEMORY_STEP_BYTES == 0 && a / MIB == b / MIB
    ensures a == b
  {
    assert a % MIB == 0 && b % MIB == 0;
  }

  // ---------------------------------------------------------------- lines of text

  function FieldLine(name: string, attributes: seq<Attribute>, text: string): string {
    Print(Line(1, TextElement(name, attributes, text)))
  }

  lemma FieldText(name: string, attributes: seq<Attribute>, text: string)
    ensures FieldLine(name, attributes, text)
         == (Indentation(1) + Show(Open(name, attributes))) + (text + "<" + ("/" + name + ">" + "\n"))
  {
    hide Indentation, ShowAttributes;
    var open, close := Open(name, attributes), Close(name);
    LineText(1, TextElement(name, attributes, text));
    assert TextElement(name, attributes, text) == [open] + ([Chars(text)] + [close]);
    PrintCons(open, [Chars(text)] + [close]);
    PrintCons(Chars(text), [close]);
    PrintOne(close);
    RegroupField(Indentation(1), Show(open), text, "/" + name + ">", "\n");
    assert Show(close) == "<" + ("/" + name + ">") by { CloseText(name); }
  }

  lemma CloseText(name: string)
    ensures Show(Close(name)) == "<" + ("/" + name + ">")
  {
    assert "<" + ("/" + name) + ">" == "<" + ("/" + name + ">");
  }

  lemma RegroupField(a: string, b: string, c: string, d: string, e: string)
    ensures a + (b + (c + ("<" + d))) + e == (a + b) + (c + "<" + (d + e))
  {
  }

  lemma RegroupRest(a: string, b: string, c: string, d: string)
    ensures (a + (b + "<" + c)) + d == a + (b + "<" + (c + d))
  {
  }

  /** Equal texts that begin with the same field have the same value in it and go on equally. */
  lemma FieldDetermined(name: string, attributes: seq<Attribute>, a: string, p: string, b: string, q: string)
    requires Lacks(a, '<') && Lacks(b, '<')
    requires FieldLine(name, attributes, a) + p == FieldLine(name, attributes, b) + q
    ensures a == b && p == q
  {
    hide FieldLine, Show, Indentation;
    var lead, end := Indentation(1) + Show(Open(name, attributes)), "/" + name + ">" + "\n";
    FieldText(name, attributes, a);
    FieldText(name, attributes, b);
    RegroupRest(lead, a, end, p);
    RegroupRest(lead, b, end, q);
    SameParts(lead, a + "<" + (end + p), lead, b + "<" + (end + q));
    SplitAtFirst(a, '<', end + p, b, end + q);
    SameParts(end, p, end, q);
  }

  lemma OpeningText(name: string, attributes: seq<Attribute>)
    requires name != ""
    ensures |Show(Open(name, attributes))| > 1 && Show(Open(name, attributes))[1] == name[0]
  {
    hide ShowAttributes;
    assert Show(Open(name, attributes)) == "<" + (name + ShowAttributes(attributes)) + ">";
  }

  /** A line for the UUID is never taken for one for the memory. */
  lemma FieldsDiffer(text: string, p: string, other: string, q: string)
    ensures FieldLine("uuid", [], text) + p != FieldLine("memory", MEMORY_UNIT, other) + q
  {
    hide FieldLine, Show, Indentation;
    FieldText("uuid", [], text);
    FieldText("memory", MEMORY_UNIT, other);
    OpeningText("uuid", []);
    OpeningText("memory", MEMORY_UNIT);
    var at := |Indentation(1)| + 1;
    assert (FieldLine("uuid", [], text) + p)[at] == 'u';
    assert (FieldLine("memory", MEMORY_UNIT, other) + q)[at] == 'm';
  }

  // ---------------------------------------------------------------- the head of a document

  /** From the operating system on. */
  function RestTokens(spec: DomainSpec, path: string): seq<Token> {
    OsTokens(spec.firmware) + PlatformTokens() + Line(1, [Open("devices", [])]) + DeviceTokens(spec, path)
    + Line(1, [Close("devices")]) + Line(0, [Close("domain")])
  }

  function UuidText(uuid: Option<string>): string {
    match uuid
    case None => ""
    case Some(text) => FieldLine("uuid", [], EscapeXml(text))
  }

  function DomainLine(): string {
    Print(Line(0, [Open("domain", [Attribute("type", "kvm")])]))
  }

  function NumbersText(spec: DomainSpec, rest: string): string {
    FieldLine("memory", MEMORY_UNIT, Decimal(spec.memoryMaxBytes / MIB))
    + (FieldLine("currentMemory", MEMORY_UNIT, Decimal(spec.memoryStartBytes / MIB))
       + (FieldLine("vcpu", VCPU_PLACEMENT, Decimal(spec.vcpus)) + rest))
  }

  lemma IdentityText(spec: DomainSpec)
    ensures Print(IdentityTokens(spec))
         == DomainLine() + FieldLine("name", [], EscapeXml(spec.name)) + UuidText(spec.uuid)
  {
    hide Print, Line, EscapeXml;
    var first, second := Line(0, [Open("domain", [Attribute("type", "kvm")])]),
                         Line(1, TextElement("name", [], EscapeXml(spec.name)));
    PrintAppend(first, second);
    if spec.uuid.Some? {
      PrintAppend(first + second, Line(1, TextElement("uuid", [], EscapeXml(spec.uuid.value))));
    } else {
      assert first + second + [] == first + second;
      assert Print(first + second) + "" == Print(first + second);
    }
  }

  lemma NumberTokens(spec: DomainSpec)
    ensures Print(MemoryTokens(spec) + VcpuTokens(spec))
         == FieldLine("memory", MEMORY_UNIT, Decimal(spec.memoryMaxBytes / MIB))
            + FieldLine("currentMemory", MEMORY_UNIT, Decimal(spec.memoryStartBytes / MIB))
            + FieldLine("vcpu", VCPU_PLACEMENT, Decimal(spec.vcpus))
  {
    hide Print, Line, Decimal;
    var a := Line(1, TextElement("memory", MEMORY_UNIT, Decimal(spec.memoryMaxBytes / MIB)));
    var b := Line(1, TextElement("currentMemory", MEMORY_UNIT, Decimal(spec.memoryStartBytes / MIB)));
    PrintAppend(a, b);
    PrintAppend(MemoryTokens(spec), VcpuTokens(spec));
  }

  lemma RegroupTokensOf(i: seq<Token>, m: seq<Token>, v: seq<Token>, o: seq<Token>, p: seq<Token>, d: seq<Token>,
                        x: seq<Token>, y: seq<Token>, z: seq<Token>)
    ensures i + m + v + o + p + d + x + y + z == i + ((m + v) + (o + p + d + x + y + z))
  {
  }

  lemma DocumentHasRest(spec: DomainSpec, path: string)
    ensures DocumentTokens(spec, path)
         == IdentityTokens(spec) + ((MemoryTokens(spec) + VcpuTokens(spec)) + RestTokens(spec, path))
  {
    hide Line, IdentityTokens, MemoryTokens, VcpuTokens, OsTokens, PlatformTokens, DeviceTokens;
    RegroupTokensOf(IdentityTokens(spec), MemoryTokens(spec), VcpuTokens(spec), OsTokens(spec.firmware),
                    PlatformTokens(), Line(1, [Open("devices", [])]), DeviceTokens(spec, path),
                    Line(1, [Close("devices")]), Line(0, [Close("domain")]));
  }

  lemma RegroupTextOf(d: string, n: string, u: string, m: string, c: string, v: string, r: string)
    ensures (d + n + u) + ((m + c + v) + r) == d + (n + (u + (m + (c + (v + r)))))
  {
  }

  lemma DocumentText(spec: DomainSpec, path: string)
    ensures Print(DocumentTokens(spec, path))
         == DomainLine() + (FieldLine("name", [], EscapeXml(spec.name))
                            + (UuidText(spec.uuid) + NumbersText(spec, Print(RestTokens(spec, path)))))
  {
    hide Print, Line, EscapeXml, Decimal, FieldLine, UuidText, DomainLine, IdentityTokens, MemoryTokens, VcpuTokens,
         OsTokens, PlatformTokens, DeviceTokens;
    DocumentHasRest(spec, path);
    PrintAppend(IdentityTokens(spec), (MemoryTokens(spec) + VcpuTokens(spec)) + RestTokens(spec, path));
    PrintAppend(MemoryTokens(spec) + VcpuTokens(spec), RestTokens(spec, path));
    IdentityText(spec);
    NumberTokens(spec);
    RegroupTextOf(DomainLine(), FieldLine("name", [], EscapeXml(spec.name)), UuidText(spec.uuid),
                  FieldLine("memory", MEMORY_UNIT, Decimal(spec.memoryMaxBytes / MIB)),
                  FieldLine("currentMemory", MEMORY_UNIT, Decimal(spec.memoryStartBytes / MIB)),
                  FieldLine("vcpu", VCPU_PLACEMENT, Decimal(spec.vcpus)), Print(RestTokens(spec, path)));
  }

  lemma NumbersDetermined(a: DomainSpec, p: string, b: DomainSpec, q: string)
    requires NumbersText(a, p) == NumbersText(b, q)
    ensures a.memoryMaxBytes / MIB == b.memoryMaxBytes / MIB && a.memoryStartBytes / MIB == b.memoryStartBytes / MIB
    ensures a.vcpus == b.vcpus && p == q
  {
    hide FieldLine, Decimal;
    var maxA, maxB := a.memoryMaxBytes / MIB, b.memoryMaxBytes / MIB;
    var startA, startB := a.memoryStartBytes / MIB, b.memoryStartBytes / MIB;
    DecimalLacks(maxA); DecimalLacks(maxB); DecimalLacks(startA); DecimalLacks(startB); DecimalLacks(a.vcpus);
    DecimalLacks(b.vcpus);
    var lastA, lastB := FieldLine("vcpu", VCPU_PLACEMENT, Decimal(a.vcpus)) + p,
                        FieldLine("vcpu", VCPU_PLACEMENT, Decimal(b.vcpus)) + q;
    FieldDetermined("memory", MEMORY_UNIT, Decimal(maxA),
                    FieldLine("currentMemory", MEMORY_UNIT, Decimal(startA)) + lastA, Decimal(maxB),
                    FieldLine("currentMemory", MEMORY_UNIT, Decimal(startB)) + lastB);
    FieldDetermined("currentMemory", MEMORY_UNIT, Decimal(startA), lastA, Decimal(startB), lastB);
    FieldDetermined("vcpu", VCPU_PLACEMENT, Decimal(a.vcpus), p, Decimal(b.vcpus), q);
    DecimalDetermined(maxA, maxB);
    DecimalDetermined(startA, startB);
    DecimalDetermined(a.vcpus, b.vcpus);
  }

  lemma UuidDetermined(a: DomainSpec, p: string, b: DomainSpec, q: string)
    requires UuidText(a.uuid) + NumbersText(a, p) == UuidText(b.uuid) + NumbersText(b, q)
    ensures a.uuid == b.uuid && NumbersText(a, p) == NumbersText(b, q)
  {
    hide FieldLine, Decimal, EscapeXml;
    assert "" + NumbersText(a, p) == NumbersText(a, p) && "" + NumbersText(b, q) == NumbersText(b, q);
    var restA := FieldLine("currentMemory", MEMORY_UNIT, Decimal(a.memoryStartBytes / MIB))
                 + (FieldLine("vcpu", VCPU_PLACEMENT, Decimal(a.vcpus)) + p);
    var restB := FieldLine("currentMemory", MEMORY_UNIT, Decimal(b.memoryStartBytes / MIB))
                 + (FieldLine("vcpu", VCPU_PLACEMENT, Decimal(b.vcpus)) + q);
    match (a.uuid, b.uuid)
    case (Some(x), Some(y)) =>
      EscapedLacks(x);
      EscapedLacks(y);
      FieldDetermined("uuid", [], EscapeXml(x), NumbersText(a, p), EscapeXml(y), NumbersText(b, q));
      EscapedDetermined(x, y);
    case (Some(x), None) =>
      FieldsDiffer(EscapeXml(x), NumbersText(a, p), Decimal(b.memoryMaxBytes / MIB), restB);
    case (None, Some(y)) =>
      FieldsDiffer(EscapeXml(y), NumbersText(b, q), Decimal(a.memoryMaxBytes / MIB), restA);
    case (None, None) =>
  }

  /** The lines of text at the head determine name, UUID, memory and processors, and the rest goes on equally. */
  lemma HeadDetermined(a: DomainSpec, pathA: string, b: DomainSpec, pathB: string)
    requires Print(DocumentTokens(a, pathA)) == Print(DocumentTokens(b, pathB))
    ensures a.name == b.name && a.uuid == b.uuid && a.vcpus == b.vcpus
    ensures a.memoryMaxBytes / MIB == b.memoryMaxBytes / MIB && a.memoryStartBytes / MIB == b.memoryStartBytes / MIB
    ensures Print(RestTokens(a, pathA)) == Print(RestTokens(b, pathB))
  {
    hide Print, EscapeXml, FieldLine, UuidText, NumbersText, DomainLine, DocumentTokens, RestTokens;
    DocumentText(a, pathA);
    DocumentText(b, pathB);
    var p, q := Print(RestTokens(a, pathA)), Print(RestTokens(b, pathB));
    var afterA, afterB := UuidText(a.uuid) + NumbersText(a, p), UuidText(b.uuid) + NumbersText(b, q);
    SameParts(DomainLine(), FieldLine("name", [], EscapeXml(a.name)) + afterA,
              DomainLine(), FieldLine("name", [], EscapeXml(b.name)) + afterB);
    EscapedLacks(a.name);
    EscapedLacks(b.name);
    FieldDetermined("name", [], EscapeXml(a.name), afterA, EscapeXml(b.name), afterB);
    EscapedDetermined(a.name, b.name);
    UuidDetermined(a, p, b, q);
    NumbersDetermined(a, p, b, q);
  }

  // ---------------------------------------------------------------- the tags of the rest

  function OsTags(firmware: FirmwareMode): seq<Token> {
    [OsOpen(firmware)] + OsBodyTags(firmware) + [Close("os")]
  }

  function PlatformTags(): seq<Token> {
    [Open("features", []), Empty("acpi", []), Empty("apic", []), Close("features"), Empty("cpu", CPU_MODE),
     Open("devices", [])]
  }

  function InterfaceTags(network: InterfaceSpec): seq<Token> {
    [InterfaceOpen(network)] + InterfaceBodyTags(network) + [Close("interface")]
  }

  function InterfacesTags(networks: seq<InterfaceSpec>): seq<Token> {
    if networks == [] then [] else InterfaceTags(networks[0]) + InterfacesTags(networks[1..])
  }

  function ChannelTags(channel: ChannelSpec): seq<Token> {
    [CHANNEL_OPEN, ChannelTarget(channel.name), Close("channel")]
  }

  function ChannelsTags(channels: seq<ChannelSpec>): seq<Token> {
    if channels == [] then [] else ChannelTags(channels[0]) + ChannelsTags(channels[1..])
  }

  function LastTags(): seq<Token> {
    [GRAPHICS, Open("video", []), VIDEO_MODEL, Close("video"), Close("devices"), Close("domain")]
  }

  function DiskTags(path: string): seq<Token> {
    [DISK_OPEN, DISK_DRIVER, DiskSource(path), DISK_TARGET, Close("disk")]
  }

  function RestTags(spec: DomainSpec, path: string): seq<Token> {
    OsTags(spec.firmware)
    + (PlatformTags()
       + (DiskTags(path) + (InterfacesTags(spec.networkInterfaces) + (ChannelsTags(spec.channels) + LastTags()))))
  }

  lemma {:induction false} TagsOfInterfaces(networks: seq<InterfaceSpec>)
    ensures Tags(InterfacesTokens(networks)) == InterfacesTags(networks)
  {
    if networks == [] {
      NoTags();
    } else {
      hide Tags, Plain, InterfaceTokens, InterfaceBody, InterfaceBodyTags, InterfaceOpen;
      TagsOfInterfaces(networks[1..]);
      InterfaceTagsOf(networks[0]);
      TagsAppend(InterfaceTokens(networks[0]), InterfacesTokens(networks[1..]));
    }
  }

  lemma InterfaceTagsOf(network: InterfaceSpec)
    ensures Tags(InterfaceTokens(network)) == InterfaceTags(network)
  {
    hide Tags, Plain, InterfaceTokens, InterfaceBody, InterfaceBodyTags;
    InterfacePart(network);
    TagsOfFramed(2, InterfaceOpen(network), InterfaceBody(network));
  }

  lemma {:induction false} TagsOfChannels(channels: seq<ChannelSpec>)
    requires PlainChannels(channels)
    ensures Tags(ChannelsTokens(channels)) == ChannelsTags(channels)
  {
    if channels == [] {
      NoTags();
    } else {
      hide Tags, Plain, ChannelTokens, PlainValue, Line;
      TagsOfChannels(channels[1..]);
      ChannelPart(channels[0].name);
      TagsOfFramed(2, CHANNEL_OPEN, Line(3, [ChannelTarget(channels[0].name)]));
      TagsAppend(ChannelTokens(channels[0]), ChannelsTokens(channels[1..]));
      assert [CHANNEL_OPEN] + [ChannelTarget(channels[0].name)] + [Close("channel")] == ChannelTags(channels[0]);
    }
  }

  lemma TagsOfDevices(spec: DomainSpec, path: string)
    requires PlainChannels(spec.channels)
    ensures Tags(DeviceTokens(spec, path))
         == DiskTags(path) + InterfacesTags(spec.networkInterfaces) + ChannelsTags(spec.channels)
            + [GRAPHICS, Open("video", []), VIDEO_MODEL, Close("video")]
  {
    hide Tags, Plain, DiskTokens, InterfacesTokens, ChannelsTokens, DisplayTokens, InterfacesTags, ChannelsTags,
         DiskBody;
    DiskIsFramed(path);
    DiskPart(path);
    TagsOfFramed(2, DISK_OPEN, DiskBody(path));
    assert [DISK_OPEN] + [DISK_DRIVER, DiskSource(path), DISK_TARGET] + [Close("disk")] == DiskTags(path);
    TagsOfInterfaces(spec.networkInterfaces);
    TagsOfChannels(spec.channels);
    DisplayPart();
    var a, b, c := DiskTokens(path), InterfacesTokens(spec.networkInterfaces), ChannelsTokens(spec.channels);
    TagsAppend3(a, b, c);
    TagsAppend(a + b + c, DisplayTokens());
  }

  lemma RegroupTags(o: seq<Token>, p: seq<Token>, d: seq<Token>, x: seq<Token>, y: seq<Token>, z: seq<Token>,
                    disk: seq<Token>, i: seq<Token>, c: seq<Token>, g: seq<Token>)
    requires d == disk + i + c + g
    ensures o + p + x + d + y + z == o + ((p + x) + (disk + (i + (c + (g + y + z)))))
  {
  }

  lemma TagsOfRest(spec: DomainSpec, path: string)
    requires PlainChannels(spec.channels)
    ensures Tags(RestTokens(spec, path)) == RestTags(spec, path)
  {
    hide Tags, Plain, Line, OsTokens, OsBody, OsBodyTags, OsOpen, PlatformTokens, DeviceTokens, InterfacesTags,
         ChannelsTags, DiskTags;
    OsIsFramed(spec.firmware);
    OsPart(spec.firmware);
    assert OsOpen(spec.firmware).Open? && OsOpen(spec.firmware).name == "os" by { OsOpens(spec.firmware); }
    TagsOfFramed(1, OsOpen(spec.firmware), OsBody(spec.firmware));
    PlatformPart();
    FramePart();
    TagsOfDevices(spec, path);
    var os, platform, devices := OsTokens(spec.firmware), PlatformTokens(), DeviceTokens(spec, path);
    var x, y, z := Line(1, [Open("devices", [])]), Line(1, [Close("devices")]), Line(0, [Close("domain")]);
    TagsAppend3(os, platform, x);
    TagsAppend3(os + platform + x, devices, y);
    TagsAppend(os + platform + x + devices + y, z);
    RegroupTags(Tags(os), Tags(platform), Tags(devices), Tags(x), Tags(y), Tags(z), DiskTags(path),
                InterfacesTags(spec.networkInterfaces), ChannelsTags(spec.channels),
                [GRAPHICS, Open("video", []), VIDEO_MODEL, Close("video")]);
    assert [GRAPHICS, Open("video", []), VIDEO_MODEL, Close("video")] + [Close("devices")] + [Close("domain")]
        == LastTags();
  }

  // ---------------------------------------------------------------- the number of tags

  function InterfaceTagNumber(networks: seq<InterfaceSpec>): nat {
    if networks == [] then 0
    else (if networks[0].UdpPointToPoint? then 6 else 4) + InterfaceTagNumber(networks[1..])
  }

  /** How many tags a document has, by the shape of its specification. */
  function TagNumber(spec: DomainSpec): nat {
    26 + (if spec.uuid.Some? then 2 else 0) + (if spec.firmware == Uefi then 8 else 4)
    + InterfaceTagNumber(spec.networkInterfaces) + 3 * |spec.channels|
  }

  lemma {:induction false} InterfacesTagNumber(networks: seq<InterfaceSpec>)
    ensures |InterfacesTags(networks)| == InterfaceTagNumber(networks)
  {
    if networks != [] {
      InterfacesTagNumber(networks[1..]);
    }
  }

  lemma {:induction false} ChannelsTagNumber(channels: seq<ChannelSpec>)
    ensures |ChannelsTags(channels)| == 3 * |channels|
  {
    if channels != [] {
      ChannelsTagNumber(channels[1..]);
    }
  }

  lemma TagsOfDocument(spec: DomainSpec, path: string)
    requires PlainChannels(spec.channels)
    ensures |Tags(DocumentTokens(spec, path))| == TagNumber(spec)
  {
    hide Tags, Plain, Line, IdentityTokens, MemoryTokens, VcpuTokens, OsTokens, PlatformTokens, DeviceTokens,
         InterfacesTags, ChannelsTags, InterfaceTagNumber, DocumentTokens, RestTokens;
    DocumentHasRest(spec, path);
    IdentityPart(spec);
    MemoryPart(spec);
    VcpuPart(spec);
    TagsOfRest(spec, path);
    InterfacesTagNumber(spec.networkInterfaces);
    ChannelsTagNumber(spec.channels);
    TagsAppend(MemoryTokens(spec), VcpuTokens(spec));
    TagsAppend(MemoryTokens(spec) + VcpuTokens(spec), RestTokens(spec, path));
    TagsAppend(IdentityTokens(spec), (MemoryTokens(spec) + VcpuTokens(spec)) + RestTokens(spec, path));
  }

  /**
   No text of a specification adds a tag: whatever its name, path and networks are, the rendered document
   has exactly as many opening brackets as its shape has tags.
   */
  lemma RenderedTagNumber(spec: DomainSpec, xml: string)
    requires RenderXml(spec) == Success(xml)
    ensures multiset(xml)['<'] == TagNumber(spec)
  {
    hide Print, Tags, Plain, RenderXml, Validate, DocumentTokens, TagNumber, PlainChannels, QuietSources;
    RenderedIsValid(spec, xml);
    ValidSources(spec);
    DocumentIsPlain(spec, spec.disks[0].sourceFile);
    BracketsAreTags(DocumentTokens(spec, spec.disks[0].sourceFile));
    TagsOfDocument(spec, spec.disks[0].sourceFile);
  }

  lemma OsOpens(firmware: FirmwareMode)
    ensures OsOpen(firmware).Open? && OsOpen(firmware).name == "os"
  {
  }

  lemma RestIsPlain(spec: DomainSpec, path: string)
    requires PlainChannels(spec.channels)
    ensures AllPlain(RestTokens(spec, path))
  {
    hide Plain, IdentityTokens, MemoryTokens, VcpuTokens, OsTokens, PlatformTokens, DeviceTokens, Line;
    DocumentIsPlain(spec, path);
    DocumentHasRest(spec, path);
    SuffixIsPlain(IdentityTokens(spec), (MemoryTokens(spec) + VcpuTokens(spec)) + RestTokens(spec, path));
    SuffixIsPlain(MemoryTokens(spec) + VcpuTokens(spec), RestTokens(spec, path));
  }

  lemma SuffixIsPlain(a: seq<Token>, b: seq<Token>)
    requires AllPlain(a + b)
    ensures AllPlain(b)
  {
    hide Plain;
    forall i | 0 <= i < |b| ensures Plain(b[i]) {
      assert (a + b)[|a| + i] == b[i];
    }
  }

  // ---------------------------------------------------------------- what the tags determine

  /** Interfaces that are printed alike; a network's mode and a link's pair are not printed. */
  predicate SameInterface(a: InterfaceSpec, b: InterfaceSpec) {
    match (a, b)
    case (LibvirtNetwork(_, s), LibvirtNetwork(_, t)) => s == t
    case (PasstUplink, PasstUplink) => true
    case (UdpPointToPoint(x), UdpPointToPoint(y)) => x.remotePort == y.remotePort && x.localPort == y.localPort
    case _ => false
  }

  predicate SameInterfaces(a: seq<InterfaceSpec>, b: seq<InterfaceSpec>) {
    |a| == |b| && forall i :: 0 <= i < |a| ==> SameInterface(a[i], b[i])
  }

  lemma KindDetermined(a: InterfaceSpec, b: InterfaceSpec)
    requires InterfaceOpen(a) == InterfaceOpen(b)
    ensures a.LibvirtNetwork? <==> b.LibvirtNetwork?
    ensures a.PasstUplink? <==> b.PasstUplink?
  {
    assert InterfaceOpen(a).attributes[0].value == InterfaceOpen(b).attributes[0].value;
    assert |InterfaceKind(a)| == |InterfaceKind(b)|;
  }

  lemma InterfaceDetermined(a: InterfaceSpec, b: InterfaceSpec)
    requires InterfaceTags(a) == InterfaceTags(b)
    ensures SameInterface(a, b)
  {
    hide EscapeXml, Decimal;
    assert InterfaceTags(a)[0] == InterfaceOpen(a) && InterfaceTags(b)[0] == InterfaceOpen(b);
    KindDetermined(a, b);
    match a
    case LibvirtNetwork(_, s) =>
      assert InterfaceTags(a)[1] == NetworkSource(s) && InterfaceTags(b)[1] == NetworkSource(b.sourceNetwork);
      assert NetworkSource(s).attributes[0].value == NetworkSource(b.sourceNetwork).attributes[0].value;
      EscapedDetermined(s, b.sourceNetwork);
    case PasstUplink =>
    case UdpPointToPoint(x) =>
      assert InterfaceTags(a)[1] == LinkSource(x) && InterfaceTags(b)[1] == LinkSource(b.link);
      assert InterfaceTags(a)[2] == LinkLocal(x) && InterfaceTags(b)[2] == LinkLocal(b.link);
      assert LinkSource(x).attributes[1].value == LinkSource(b.link).attributes[1].value;
      assert LinkLocal(x).attributes[1].value == LinkLocal(b.link).attributes[1].value;
      DecimalDetermined(x.remotePort, b.link.remotePort);
      DecimalDetermined(x.localPort, b.link.localPort);
  }

  lemma InterfaceTagCount(a: InterfaceSpec, b: InterfaceSpec)
    requires InterfaceOpen(a) == InterfaceOpen(b)
    ensures |InterfaceTags(a)| == |InterfaceTags(b)|
  {
    KindDetermined(a, b);
  }

  /** No interface begins here. */
  predicate StartsElsewhere(ts: seq<Token>, name: string) {
    ts != [] && !(ts[0].Open? && ts[0].name == name)
  }

  lemma InterfacesBegin(networks: seq<InterfaceSpec>, rest: seq<Token>)
    ensures networks == [] ==> InterfacesTags(networks) + rest == rest
    ensures networks != [] ==>
              && InterfacesTags(networks) + rest == InterfaceTags(networks[0]) + (InterfacesTags(networks[1..]) + rest)
              && InterfaceTags(networks[0]) != [] && InterfaceTags(networks[0])[0] == InterfaceOpen(networks[0])
              && !StartsElsewhere(InterfacesTags(networks) + rest, "interface")
  {
    hide InterfaceTags, InterfaceOpen;
    if networks == [] {
      assert [] + rest == rest;
    } else {
      InterfaceLeads(networks[0]);
      LedBy(InterfaceTags(networks[0]), InterfacesTags(networks[1..]), rest);
    }
  }

  lemma InterfaceLeads(network: InterfaceSpec)
    ensures InterfaceTags(network) != [] && InterfaceTags(network)[0] == InterfaceOpen(network)
    ensures InterfaceOpen(network).Open? && InterfaceOpen(network).name == "interface"
  {
    hide InterfaceBodyTags;
  }

  lemma LedBy(a: seq<Token>, b: seq<Token>, rest: seq<Token>)
    requires a != []
    ensures a + b + rest == a + (b + rest) && (a + b + rest)[0] == a[0]
  {
  }

  lemma {:induction false} InterfacesDetermined(a: seq<InterfaceSpec>, p: seq<Token>, b: seq<InterfaceSpec>,
                                                q: seq<Token>)
    requires InterfacesTags(a) + p == InterfacesTags(b) + q
    requires StartsElsewhere(p, "interface") && StartsElsewhere(q, "interface")
    ensures SameInterfaces(a, b) && p == q
  {
    hide InterfaceTags, InterfacesTags, InterfaceOpen, StartsElsewhere, SameInterface;
    InterfacesBegin(a, p);
    InterfacesBegin(b, q);
    if a != [] && b != [] {
      var headA, restA := InterfaceTags(a[0]), InterfacesTags(a[1..]) + p;
      var headB, restB := InterfaceTags(b[0]), InterfacesTags(b[1..]) + q;
      assert (headA + restA)[0] == headA[0] && (headB + restB)[0] == headB[0];
      InterfaceTagCount(a[0], b[0]);
      SameParts(headA, restA, headB, restB);
      InterfaceDetermined(a[0], b[0]);
      InterfacesDetermined(a[1..], p, b[1..], q);
    }
  }

  lemma ChannelsBegin(channels: seq<ChannelSpec>)
    ensures channels == [] ==> ChannelsTags(channels) + LastTags() == LastTags()
    ensures channels != [] ==>
              && ChannelsTags(channels) + LastTags()
                 == ChannelTags(channels[0]) + (ChannelsTags(channels[1..]) + LastTags())
              && ChannelsTags(channels) + LastTags() != LastTags()
  {
    if channels != [] {
      assert (ChannelsTags(channels) + LastTags())[0] == CHANNEL_OPEN && LastTags()[0] == GRAPHICS;
    }
  }

  lemma {:induction false} ChannelsDetermined(a: seq<ChannelSpec>, b: seq<ChannelSpec>)
    requires ChannelsTags(a) + LastTags() == ChannelsTags(b) + LastTags()
    ensures a == b
  {
    hide LastTags, ChannelsTags;
    ChannelsBegin(a);
    ChannelsBegin(b);
    if a != [] && b != [] {
      var headA, restA := ChannelTags(a[0]), ChannelsTags(a[1..]) + LastTags();
      var headB, restB := ChannelTags(b[0]), ChannelsTags(b[1..]) + LastTags();
      SameParts(headA, restA, headB, restB);
      assert headA[1].attributes[1].value == headB[1].attributes[1].value;
      ChannelsDetermined(a[1..], b[1..]);
    }
  }

  lemma FirmwareDetermined(a: FirmwareMode, p: seq<Token>, b: FirmwareMode, q: seq<Token>)
    requires OsTags(a) + p == OsTags(b) + q
    ensures a == b && p == q
  {
    hide OsBodyTags;
    assert (OsTags(a) + p)[0] == OsOpen(a) && (OsTags(b) + q)[0] == OsOpen(b);
    assert |OsOpen(a).attributes| == |OsOpen(b).attributes|;
    SameParts(OsTags(a), p, OsTags(b), q);
  }

  lemma DiskDetermined(a: string, p: seq<Token>, b: string, q: seq<Token>)
    requires PlatformTags() + (DiskTags(a) + p) == PlatformTags() + (DiskTags(b) + q)
    ensures a == b && p == q
  {
    hide EscapeXml, PlatformTags;
    SameParts(PlatformTags(), DiskTags(a) + p, PlatformTags(), DiskTags(b) + q);
    SameParts(DiskTags(a), p, DiskTags(b), q);
    assert DiskTags(a)[2] == DiskSource(a) && DiskTags(b)[2] == DiskSource(b);
    assert DiskSource(a).attributes[0].value == DiskSource(b).attributes[0].value;
    EscapedDetermined(a, b);
  }

  lemma ChannelsAreElsewhere(channels: seq<ChannelSpec>)
    ensures StartsElsewhere(ChannelsTags(channels) + LastTags(), "interface")
  {
    if channels == [] {
      assert ChannelsTags(channels) + LastTags() == LastTags();
    } else {
      assert (ChannelsTags(channels) + LastTags())[0] == CHANNEL_OPEN;
    }
  }

  lemma RestDetermined(a: DomainSpec, pathA: string, b: DomainSpec, pathB: string)
    requires PlainChannels(a.channels) && PlainChannels(b.channels)
    requires Print(RestTokens(a, pathA)) == Print(RestTokens(b, pathB))
    ensures a.firmware == b.firmware && pathA == pathB
    ensures SameInterfaces(a.networkInterfaces, b.networkInterfaces) && a.channels == b.channels
  {
    hide Print, RestTokens, OsTags, PlatformTags, DiskTags, InterfacesTags, ChannelsTags, LastTags, SameInterfaces,
         PlainChannels, StartsElsewhere, Plain, Tags;
    RestIsPlain(a, pathA);
    RestIsPlain(b, pathB);
    TagsDetermined(RestTokens(a, pathA), RestTokens(b, pathB));
    TagsOfRest(a, pathA);
    TagsOfRest(b, pathB);
    var lastA, lastB := ChannelsTags(a.channels) + LastTags(), ChannelsTags(b.channels) + LastTags();
    var netA, netB := InterfacesTags(a.networkInterfaces) + lastA, InterfacesTags(b.networkInterfaces) + lastB;
    FirmwareDetermined(a.firmware, PlatformTags() + (DiskTags(pathA) + netA), b.firmware,
                       PlatformTags() + (DiskTags(pathB) + netB));
    DiskDetermined(pathA, netA, pathB, netB);
    ChannelsAreElsewhere(a.channels);
    ChannelsAreElsewhere(b.channels);
    InterfacesDetermined(a.networkInterfaces, lastA, b.networkInterfaces, lastB);
    ChannelsDetermined(a.channels, b.channels);
  }

  // ---------------------------------------------------------------- the theorem

  /** Specifications that agree on everything about the domain that a document says. */
  predicate SamePrinted(a: DomainSpec, b: DomainSpec)
    requires |a.disks| == 1 && |b.disks| == 1
  {
    && a.name == b.name && a.uuid == b.uuid && a.firmware == b.firmware && a.vcpus == b.vcpus
    && a.memoryStartBytes == b.memoryStartBytes && a.memoryMaxBytes == b.memoryMaxBytes
    && a.disks[0].sourceFile == b.disks[0].sourceFile
    && SameInterfaces(a.networkInterfaces, b.networkInterfaces) && a.channels == b.channels
  }

  lemma {:induction false} InterfacesPrintAlike(a: seq<InterfaceSpec>, b: seq<InterfaceSpec>)
    requires SameInterfaces(a, b)
    ensures InterfacesTokens(a) == InterfacesTokens(b)
  {
    if a != [] {
      assert SameInterface(a[0], b[0]);
      hide SameInterface, EscapeXml, Decimal, Line;
      InterfacePrintsAlike(a[0], b[0]);
      hide InterfaceTokens;
      InterfacesPrintAlike(a[1..], b[1..]);
    }
  }

  lemma InterfacePrintsAlike(a: InterfaceSpec, b: InterfaceSpec)
    requires SameInterface(a, b)
    ensures InterfaceTokens(a) == InterfaceTokens(b)
  {
    hide EscapeXml, Decimal, Line;
  }

  lemma PrintedAlike(a: DomainSpec, b: DomainSpec)
    requires |a.disks| == 1 && |b.disks| == 1 && SamePrinted(a, b)
    ensures DocumentTokens(a, a.disks[0].sourceFile) == DocumentTokens(b, b.disks[0].sourceFile)
  {
    hide SameInterfaces, InterfacesTokens, ChannelsTokens, Line, DiskTokens, OsTokens, PlatformTokens, DisplayTokens,
         EscapeXml, Decimal;
    InterfacesPrintAlike(a.networkInterfaces, b.networkInterfaces);
  }

  lemma HeadsAgree(a: DomainSpec, b: DomainSpec, path: string)
    requires Validate(a).Success? && Validate(b).Success?
    requires Print(DocumentTokens(a, path)) == Print(DocumentTokens(b, path))
    ensures a.memoryMaxBytes == b.memoryMaxBytes && a.memoryStartBytes == b.memoryStartBytes
  {
    hide Print, DocumentTokens, Validate;
    HeadDetermined(a, path, b, path);
    ValidMemory(a);
    ValidMemory(b);
    MemoryDetermined(a.memoryMaxBytes, b.memoryMaxBytes);
    MemoryDetermined(a.memoryStartBytes, b.memoryStartBytes);
  }

  /**
   The document determines the domain: two valid specifications are rendered alike if and only if they
   agree on name, UUID, firmware, processors, both memory sizes, disk path, interfaces with their
   networks and ports, and channels.
   */
  lemma RenderedAlikeIff(a: DomainSpec, x: string, b: DomainSpec, y: string)
    requires RenderXml(a) == Success(x) && RenderXml(b) == Success(y)
    ensures |a.disks| == 1 && |b.disks| == 1
    ensures x == y <==> SamePrinted(a, b)
  {
    hide Print, DocumentTokens, RestTokens, RenderXml, Validate, SameInterfaces, PlainChannels, QuietSources;
    RenderedIsValid(a, x);
    RenderedIsValid(b, y);
    ValidSources(a);
    ValidSources(b);
    var pathA, pathB := a.disks[0].sourceFile, b.disks[0].sourceFile;
    if x == y {
      HeadDetermined(a, pathA, b, pathB);
      RestDetermined(a, pathA, b, pathB);
      HeadsAgree(a, b, pathA);
    }
    if SamePrinted(a, b) {
      PrintedAlike(a, b);
    }
  }
}
