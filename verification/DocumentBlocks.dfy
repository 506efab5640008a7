/** Which blocks the block scanner finds in a printed domain document. */
module DocumentBlocks {
  import opened Markup
  import opened Scanners
  import opened ScannerTheorems
  import opened DomainXml
  import opened DocumentShape
  import opened DocumentParts

  // ---------------------------------------------------------------- the document and its frame

  function Head(spec: DomainSpec): seq<Token> {
    BeforeDevices(spec) + Line(1, [Open("devices", [])])
  }

  function Tail(): seq<Token> {
    Line(1, [Close("devices")]) + Line(0, [Close("domain")])
  }

  lemma DocumentParted(spec: DomainSpec, path: string)
    ensures DocumentTokens(spec, path)
         == Head(spec) + DiskTokens(path) + InterfacesTokens(spec.networkInterfaces)
            + ChannelsTokens(spec.channels) + DisplayTokens() + Tail()
    ensures DocumentTokens(spec, path)
         == BeforeDevices(spec) + Framed(1, Open("devices", []), DeviceTokens(spec, path)) + Line(0, [Close("domain")])
  {
    hide Line, BeforeDevices, DiskTokens, InterfacesTokens, ChannelsTokens, DisplayTokens;
  }

  predicate PlainChannels(channels: seq<ChannelSpec>) {
    forall i :: 0 <= i < |channels| ==> PlainValue(channels[i].name)
  }

  lemma {:induction false} InterfacesArePlain(networks: seq<InterfaceSpec>)
    ensures AllPlain(InterfacesTokens(networks))
  {
    if networks != [] {
      hide Plain, InterfaceTokens;
      InterfacesArePlain(networks[1..]);
      InterfacePart(networks[0]);
      FramedIsPlain(2, InterfaceOpen(networks[0]), InterfaceBody(networks[0]));
    }
  }

  lemma FramedIsPlain(depth: nat, open: Token, body: seq<Token>)
    requires open.Open? && Plain(open) && AllPlain(body)
    ensures AllPlain(Framed(depth, open, body)) && AllPlain(Block(depth, open, body))
  {
    hide Line;
    ClosesPlainly(open);
    hide Plain;
    PlainLine(depth, open);
    PlainLine(depth, Close(open.name));
    PlainSpace(depth);
  }

  lemma ClosesPlainly(open: Token)
    requires open.Open? && Plain(open)
    ensures Plain(Close(open.name))
  {
  }

  lemma {:induction false} ChannelsArePlain(channels: seq<ChannelSpec>)
    requires PlainChannels(channels)
    ensures AllPlain(ChannelsTokens(channels))
  {
    if channels != [] {
      hide Plain, PlainValue, ChannelTokens;
      ChannelsArePlain(channels[1..]);
      ChannelPart(channels[0].name);
      FramedIsPlain(2, CHANNEL_OPEN, Line(3, [ChannelTarget(channels[0].name)]));
    }
  }

  lemma FramePart()
    ensures AllPlain(Line(1, [Open("devices", [])])) && Tags(Line(1, [Open("devices", [])])) == [Open("devices", [])]
    ensures AllPlain(Line(1, [Close("devices")])) && Tags(Line(1, [Close("devices")])) == [Close("devices")]
    ensures AllPlain(Line(0, [Close("domain")])) && Tags(Line(0, [Close("domain")])) == [Close("domain")]
    ensures Plain(Open("devices", []))
  {
    hide Word, Plain, PlainName, Tags, Line;
    HeadWords();
    PlatformWords();
    WordIsPlain("devices"); WordIsPlain("domain");
    PlainTag("devices", []); PlainTag("domain", []);
    TagLine(1, Open("devices", [])); TagLine(1, Close("devices")); TagLine(0, Close("domain"));
  }

  /** The whole document is plain printed markup, whatever the name and the path. */
  lemma DocumentIsPlain(spec: DomainSpec, path: string)
    requires PlainChannels(spec.channels)
    ensures AllPlain(DocumentTokens(spec, path))
    ensures AllPlain(BeforeDevices(spec)) && AllPlain(DeviceTokens(spec, path))
  {
    hide Plain, IdentityTokens, MemoryTokens, VcpuTokens, OsTokens, PlatformTokens, DiskTokens, DisplayTokens, Line,
         Tags;
    IdentityPart(spec);
    MemoryPart(spec);
    VcpuPart(spec);
    OsIsFramed(spec.firmware);
    OsPart(spec.firmware);
    FramedIsPlain(1, OsOpen(spec.firmware), OsBody(spec.firmware));
    PlatformPart();
    FramePart();
    DiskIsFramed(path);
    DiskPart(path);
    FramedIsPlain(2, DISK_OPEN, DiskBody(path));
    InterfacesArePlain(spec.networkInterfaces);
    ChannelsArePlain(spec.channels);
    DisplayPart();
  }

  // ---------------------------------------------------------------- parts without a name

  predicate HeadAvoids(q: string) {
    && Distinct("domain", q) && Distinct("name", q) && Distinct("uuid", q) && Distinct("memory", q)
    && Distinct("currentMemory", q) && Distinct("vcpu", q) && OsAvoids(q) && PlatformAvoids(q)
  }

  predicate OsAvoids(q: string) {
    Distinct("os", q) && Distinct("type", q) && Distinct("firmware", q) && Distinct("feature", q)
  }

  predicate PlatformAvoids(q: string) {
    Distinct("features", q) && Distinct("acpi", q) && Distinct("apic", q) && Distinct("cpu", q)
  }

  predicate DiskAvoids(q: string) {
    Distinct("disk", q) && Distinct("driver", q) && Distinct("source", q) && Distinct("target", q)
  }

  predicate InterfaceAvoids(q: string) {
    && Distinct("interface", q) && Distinct("source", q) && Distinct("local", q)
    && Distinct("backend", q) && Distinct("model", q)
  }

  predicate ChannelAvoids(q: string) {
    Distinct("channel", q) && Distinct("target", q)
  }

  predicate DisplayAvoids(q: string) {
    Distinct("graphics", q) && Distinct("video", q) && Distinct("model", q)
  }

  lemma AvoidedOs()
    ensures PlainName("os") && Distinct("domain", "os") && Distinct("name", "os") && Distinct("uuid", "os")
    ensures Distinct("memory", "os") && Distinct("currentMemory", "os") && Distinct("vcpu", "os")
  {
    OsWords();
    WordIsPlain("os");
  }

  lemma AvoidedDisk()
    ensures PlainName("disk") && HeadAvoids("disk") && Distinct("devices", "disk")
    ensures InterfaceAvoids("disk") && ChannelAvoids("disk") && DisplayAvoids("disk")
  {
    DiskWords();
    WordIsPlain("disk");
  }

  lemma AvoidedInterface()
    ensures PlainName("interface") && HeadAvoids("interface") && Distinct("devices", "interface")
    ensures DiskAvoids("interface") && ChannelAvoids("interface") && DisplayAvoids("interface")
  {
    InterfaceWords();
    WordIsPlain("interface");
  }

  lemma AvoidedChannel()
    ensures PlainName("channel") && HeadAvoids("channel") && Distinct("devices", "channel")
    ensures DiskAvoids("channel") && InterfaceAvoids("channel") && DisplayAvoids("channel")
  {
    DeviceWords();
    WordIsPlain("channel");
  }

  lemma AvoidedDevices()
    ensures PlainName("devices") && HeadAvoids("devices")
  {
    PlatformWords();
    WordIsPlain("devices");
  }

  lemma AvoidedPassthrough()
    ensures PlainName("hostdev") && DiskAvoids("hostdev") && InterfaceAvoids("hostdev") && ChannelAvoids("hostdev")
    ensures DisplayAvoids("hostdev") && Distinct("devices", "hostdev")
    ensures PlainName("filesystem") && DiskAvoids("filesystem") && InterfaceAvoids("filesystem")
    ensures ChannelAvoids("filesystem") && DisplayAvoids("filesystem") && Distinct("devices", "filesystem")
  {
    DeviceWords();
    WordIsPlain("hostdev");
    WordIsPlain("filesystem");
  }

  lemma IdentityAvoids(spec: DomainSpec, q: string)
    requires PlainName(q) && Distinct("domain", q) && Distinct("name", q) && Distinct("uuid", q)
    ensures NoTag(IdentityTokens(spec), q)
  {
    hide Distinct, PlainName, Plain, StartsTag, Tags, IdentityTokens;
    IdentityPart(spec);
    NamesAvoid(IdentityTokens(spec), q);
  }

  lemma MemoryAvoids(spec: DomainSpec, q: string)
    requires PlainName(q) && Distinct("memory", q) && Distinct("currentMemory", q)
    ensures NoTag(MemoryTokens(spec), q)
  {
    hide Distinct, PlainName, Plain, StartsTag, Tags, MemoryTokens;
    MemoryPart(spec);
    NamesAvoid(MemoryTokens(spec), q);
  }

  lemma VcpuAvoids(spec: DomainSpec, q: string)
    requires PlainName(q) && Distinct("vcpu", q)
    ensures NoTag(VcpuTokens(spec), q)
  {
    hide Distinct, PlainName, Plain, StartsTag, Tags, VcpuTokens;
    VcpuPart(spec);
    NamesAvoid(VcpuTokens(spec), q);
  }

  lemma FramedAvoids(depth: nat, open: Token, body: seq<Token>, q: string)
    requires open.Open? && Plain(open) && AllPlain(body) && PlainName(q)
    requires Distinct(open.name, q) && AvoidsName(Tags(body), q)
    ensures NoTag(Framed(depth, open, body), q) && NoTag(Block(depth, open, body), q)
  {
    hide Distinct, PlainName, Plain, StartsTag, Tags, Framed, Block;
    TagsOfFramed(depth, open, body);
    FramedIsPlain(depth, open, body);
    NamesAvoid(Framed(depth, open, body), q);
    NamesAvoid(Block(depth, open, body), q);
  }

  lemma PlatformPartAvoids(q: string)
    requires PlainName(q) && PlatformAvoids(q)
    ensures NoTag(PlatformTokens(), q)
  {
    hide Distinct, PlainName, Plain, StartsTag, Tags, PlatformTokens;
    PlatformPart();
    NamesAvoid(PlatformTokens(), q);
  }

  lemma BeforeDevicesAvoids(spec: DomainSpec, q: string)
    requires PlainName(q) && HeadAvoids(q)
    ensures NoTag(BeforeDevices(spec), q)
  {
    hide Distinct, PlainName, Plain, StartsTag, Tags, IdentityTokens, MemoryTokens, VcpuTokens, PlatformTokens,
         OsTokens;
    IdentityAvoids(spec, q);
    MemoryAvoids(spec, q);
    VcpuAvoids(spec, q);
    OsIsFramed(spec.firmware);
    OsPart(spec.firmware);
    FramedAvoids(1, OsOpen(spec.firmware), OsBody(spec.firmware), q);
    PlatformPartAvoids(q);
  }

  lemma HeadPartAvoids(spec: DomainSpec, q: string)
    requires PlainName(q) && HeadAvoids(q) && Distinct("devices", q)
    ensures NoTag(Head(spec), q)
  {
    hide Distinct, PlainName, Plain, StartsTag, Tags, BeforeDevices, Line;
    BeforeDevicesAvoids(spec, q);
    FramePart();
    NamesAvoid(Line(1, [Open("devices", [])]), q);
  }

  lemma TailPartAvoids(q: string)
    requires PlainName(q)
    ensures NoTag(Tail(), q)
  {
    hide Distinct, PlainName, Plain, StartsTag, Tags, Line;
    FramePart();
    NamesAvoid(Line(1, [Close("devices")]), q);
    NamesAvoid(Line(0, [Close("domain")]), q);
  }

  lemma DiskPartAvoids(path: string, q: string)
    requires PlainName(q) && DiskAvoids(q)
    ensures NoTag(DiskTokens(path), q)
  {
    hide Distinct, PlainName, Plain, StartsTag, Tags, DiskTokens;
    DiskIsFramed(path);
    DiskPart(path);
    FramedAvoids(2, DISK_OPEN, DiskBody(path), q);
  }

  lemma {:induction false} InterfacesAvoid(networks: seq<InterfaceSpec>, q: string)
    requires PlainName(q) && InterfaceAvoids(q)
    ensures NoTag(InterfacesTokens(networks), q)
  {
    if networks != [] {
      hide Distinct, PlainName, Plain, StartsTag, Tags, InterfaceTokens;
      InterfacesAvoid(networks[1..], q);
      InterfacePart(networks[0]);
      FramedAvoids(2, InterfaceOpen(networks[0]), InterfaceBody(networks[0]), q);
    }
  }

  lemma {:induction false} ChannelsAvoid(channels: seq<ChannelSpec>, q: string)
    requires PlainName(q) && ChannelAvoids(q) && PlainChannels(channels)
    ensures NoTag(ChannelsTokens(channels), q)
  {
    if channels != [] {
      hide Distinct, PlainName, PlainValue, Plain, StartsTag, Tags, ChannelTokens, Line;
      ChannelsAvoid(channels[1..], q);
      ChannelPart(channels[0].name);
      FramedAvoids(2, CHANNEL_OPEN, Line(3, [ChannelTarget(channels[0].name)]), q);
    }
  }

  lemma DisplayPartAvoids(q: string)
    requires PlainName(q) && DisplayAvoids(q)
    ensures NoTag(DisplayTokens(), q)
  {
    hide Distinct, PlainName, Plain, StartsTag, Tags, DisplayTokens;
    DisplayPart();
    NamesAvoid(DisplayTokens(), q);
  }

  // ---------------------------------------------------------------- the blocks

  lemma NoBlocks(ts: seq<Token>, tag: string)
    requires NoTag(ts, tag)
    ensures Blocks(ts, tag) == []
  {
    BlocksPast(ts, [], tag);
    assert ts + [] == ts;
  }

  /** Without a closing tag of that name there is no block, even if the element occurs. */
  lemma NoBlocksWithoutClose(ts: seq<Token>, tag: string)
    requires PlainName(tag) && AllPlain(ts) && NeverCloses(ts, tag)
    ensures Blocks(ts, tag) == []
  {
    hide PlainName;
    ClosingPattern(tag);
    TakeAndDrop(ts, tag);
    var taken, from := TakeTo(ts, tag), DropTo(ts, tag);
    forall i | 0 <= i < |from| ensures !StartsTag(from[i], ClosePattern(tag)) {
      assert from[i] == ts[|taken| + i];
    }
    DropPast(from, [], ClosePattern(tag));
    assert from + [] == from;
  }

  lemma NoTagAppend(a: seq<Token>, b: seq<Token>, q: string)
    requires NoTag(a, q) && NoTag(b, q)
    ensures NoTag(a + b, q)
  {
    hide StartsTag;
  }

  lemma Regroup(a: seq<Token>, b: seq<Token>, c: seq<Token>, d: seq<Token>, e: seq<Token>, f: seq<Token>)
    ensures a + b + c + d + e + f == (a + b) + (c + (d + e + f))
    ensures a + b + c + d + e + f == (a + b + c) + (d + (e + f))
    ensures a + b + c + d + e + f == a + b + (c + d + e + f)
  {
  }

  /** Only the middle part of a document matters for a name that the others avoid. */
  lemma BlocksOfMiddle(before: seq<Token>, middle: seq<Token>, rest: seq<Token>, tag: string)
    requires NoTag(before, tag) && NoTag(rest, tag)
    ensures Blocks(before + (middle + rest), tag) == Blocks(middle + rest, tag) && Blocks(rest, tag) == []
  {
    hide NoTag, Blocks;
    BlocksPast(before, middle + rest, tag);
    NoBlocks(rest, tag);
  }

  lemma OsBlocks(spec: DomainSpec, path: string)
    requires PlainChannels(spec.channels)
    ensures var blocks := Blocks(DocumentTokens(spec, path), "os");
            blocks != [] && blocks[0] == Block(1, OsOpen(spec.firmware), OsBody(spec.firmware))
  {
    AvoidedOs();
    hide Distinct, PlainName, Plain, StartsTag, Tags, Word, Line, IdentityTokens, MemoryTokens, VcpuTokens, OsTokens,
         PlatformTokens, DeviceTokens, Blocks, Block, Framed;
    IdentityAvoids(spec, "os");
    MemoryAvoids(spec, "os");
    VcpuAvoids(spec, "os");
    IdentityPart(spec);
    MemoryPart(spec);
    VcpuPart(spec);
    OsIsFramed(spec.firmware);
    OsPart(spec.firmware);
    OsNeverCloses(spec.firmware);
    var before := IdentityTokens(spec) + MemoryTokens(spec) + VcpuTokens(spec);
    var rest := PlatformTokens() + Line(1, [Open("devices", [])]) + DeviceTokens(spec, path)
                + Line(1, [Close("devices")]) + Line(0, [Close("domain")]);
    assert DocumentTokens(spec, path) == before + Framed(1, OsOpen(spec.firmware), OsBody(spec.firmware)) + rest;
    FramedBlock(before, 1, OsOpen(spec.firmware), OsBody(spec.firmware), rest, "os");
  }

  lemma OsNeverCloses(firmware: FirmwareMode)
    ensures NeverCloses(OsBody(firmware), "os")
  {
    hide Tags, Plain;
    OsPart(firmware);
    NeverClosesByTags(OsBody(firmware), "os");
  }

  lemma DiskBlocks(spec: DomainSpec, path: string)
    requires PlainChannels(spec.channels)
    ensures Blocks(DocumentTokens(spec, path), "disk") == [Block(2, DISK_OPEN, DiskBody(path))]
  {
    AvoidedDisk();
    hide HeadAvoids, InterfaceAvoids, ChannelAvoids, DisplayAvoids, Distinct, PlainName, Plain, StartsTag, Tags, Word,
         Head, Tail, DiskTokens, InterfacesTokens, ChannelsTokens, DisplayTokens, DocumentTokens, Blocks, Block, Framed;
    DocumentParted(spec, path);
    HeadIsPlain(spec);
    HeadPartAvoids(spec, "disk");
    DiskIsFramed(path);
    DiskPart(path);
    NeverClosesByTags(DiskBody(path), "disk");
    var rest := InterfacesTokens(spec.networkInterfaces) + ChannelsTokens(spec.channels) + DisplayTokens() + Tail();
    InterfacesAvoid(spec.networkInterfaces, "disk");
    ChannelsAvoid(spec.channels, "disk");
    DisplayPartAvoids("disk");
    TailPartAvoids("disk");
    NoBlocks(rest, "disk");
    Regroup(Head(spec), DiskTokens(path), InterfacesTokens(spec.networkInterfaces), ChannelsTokens(spec.channels),
            DisplayTokens(), Tail());
    FramedBlock(Head(spec), 2, DISK_OPEN, DiskBody(path), rest, "disk");
  }

  lemma HeadIsPlain(spec: DomainSpec)
    ensures AllPlain(Head(spec))
  {
    hide Plain, Tags, Line, IdentityTokens, MemoryTokens, VcpuTokens, OsTokens, PlatformTokens;
    IdentityPart(spec);
    MemoryPart(spec);
    VcpuPart(spec);
    OsIsFramed(spec.firmware);
    OsPart(spec.firmware);
    FramedIsPlain(1, OsOpen(spec.firmware), OsBody(spec.firmware));
    PlatformPart();
    FramePart();
  }

  function InterfaceBlock(network: InterfaceSpec): seq<Token> {
    Block(2, InterfaceOpen(network), InterfaceBody(network))
  }

  function InterfaceBlocks(networks: seq<InterfaceSpec>): seq<seq<Token>> {
    if networks == [] then [] else [InterfaceBlock(networks[0])] + InterfaceBlocks(networks[1..])
  }

  lemma {:induction false} EachInterfaceIsABlock(networks: seq<InterfaceSpec>, rest: seq<Token>)
    requires Word("interface")
    ensures Blocks(InterfacesTokens(networks) + rest, "interface")
         == InterfaceBlocks(networks) + Blocks(rest, "interface")
  {
    hide Distinct, PlainName, Plain, StartsTag, Tags, Word, Blocks, Block, Framed, InterfaceTokens;
    if networks == [] {
      assert InterfacesTokens(networks) + rest == rest;
    } else {
      var n, more := networks[0], InterfacesTokens(networks[1..]) + rest;
      WordIsPlain("interface");
      InterfacePart(n);
      assert Word("source") by { DiskWords(); }
      BodyNeverClosesInterface(n);
      assert InterfacesTokens(networks) + rest == [] + Framed(2, InterfaceOpen(n), InterfaceBody(n)) + more;
      FramedBlock([], 2, InterfaceOpen(n), InterfaceBody(n), more, "interface");
      EachInterfaceIsABlock(networks[1..], rest);
    }
  }

  lemma BodyNeverClosesInterface(n: InterfaceSpec)
    ensures NeverCloses(InterfaceBody(n), "interface")
  {
    hide Tags, Plain;
    InterfacePart(n);
    NeverClosesByTags(InterfaceBody(n), "interface");
  }

  lemma InterfaceBlocksOfDocument(spec: DomainSpec, path: string)
    requires PlainChannels(spec.channels)
    ensures Blocks(DocumentTokens(spec, path), "interface") == InterfaceBlocks(spec.networkInterfaces)
  {
    AvoidedInterface();
    assert Word("interface") by { InterfaceWords(); }
    hide *;
    DocumentParted(spec, path);
    HeadPartAvoids(spec, "interface");
    DiskPartAvoids(path, "interface");
    var before := Head(spec) + DiskTokens(path);
    var rest := ChannelsTokens(spec.channels) + DisplayTokens() + Tail();
    ChannelsAvoid(spec.channels, "interface");
    DisplayPartAvoids("interface");
    TailPartAvoids("interface");
    NoTagAppend(Head(spec), DiskTokens(path), "interface");
    NoTagAppend(ChannelsTokens(spec.channels), DisplayTokens(), "interface");
    NoTagAppend(ChannelsTokens(spec.channels) + DisplayTokens(), Tail(), "interface");
    Regroup(Head(spec), DiskTokens(path), InterfacesTokens(spec.networkInterfaces), ChannelsTokens(spec.channels),
            DisplayTokens(), Tail());
    BlocksOfMiddle(before, InterfacesTokens(spec.networkInterfaces), rest, "interface");
    EachInterfaceIsABlock(spec.networkInterfaces, rest);
  }

  function ChannelBlock(channel: ChannelSpec): seq<Token> {
    Block(2, CHANNEL_OPEN, Line(3, [ChannelTarget(channel.name)]))
  }

  function ChannelBlocks(channels: seq<ChannelSpec>): seq<seq<Token>> {
    if channels == [] then [] else [ChannelBlock(channels[0])] + ChannelBlocks(channels[1..])
  }

  lemma {:induction false} EachChannelIsABlock(channels: seq<ChannelSpec>, rest: seq<Token>)
    requires Word("channel") && PlainChannels(channels)
    ensures Blocks(ChannelsTokens(channels) + rest, "channel") == ChannelBlocks(channels) + Blocks(rest, "channel")
  {
    hide Distinct, PlainName, PlainValue, Plain, StartsTag, Tags, Word, Blocks, Block, Framed, ChannelTokens, Line;
    if channels == [] {
      assert ChannelsTokens(channels) + rest == rest;
    } else {
      var target, more := Line(3, [ChannelTarget(channels[0].name)]), ChannelsTokens(channels[1..]) + rest;
      WordIsPlain("channel");
      ChannelPart(channels[0].name);
      NeverClosesByTags(target, "channel");
      assert ChannelsTokens(channels) + rest == [] + Framed(2, CHANNEL_OPEN, target) + more;
      FramedBlock([], 2, CHANNEL_OPEN, target, more, "channel");
      EachChannelIsABlock(channels[1..], rest);
    }
  }

  lemma ChannelBlocksOfDocument(spec: DomainSpec, path: string)
    requires PlainChannels(spec.channels)
    ensures Blocks(DocumentTokens(spec, path), "channel") == ChannelBlocks(spec.channels)
  {
    AvoidedChannel();
    assert Word("channel") by { DeviceWords(); }
    hide *;
    DocumentParted(spec, path);
    HeadPartAvoids(spec, "channel");
    DiskPartAvoids(path, "channel");
    InterfacesAvoid(spec.networkInterfaces, "channel");
    var before := Head(spec) + DiskTokens(path) + InterfacesTokens(spec.networkInterfaces);
    var rest := DisplayTokens() + Tail();
    DisplayPartAvoids("channel");
    TailPartAvoids("channel");
    NoTagAppend(Head(spec), DiskTokens(path), "channel");
    NoTagAppend(Head(spec) + DiskTokens(path), InterfacesTokens(spec.networkInterfaces), "channel");
    NoTagAppend(DisplayTokens(), Tail(), "channel");
    Regroup(Head(spec), DiskTokens(path), InterfacesTokens(spec.networkInterfaces), ChannelsTokens(spec.channels),
            DisplayTokens(), Tail());
    BlocksOfMiddle(before, ChannelsTokens(spec.channels), rest, "channel");
    EachChannelIsABlock(spec.channels, rest);
  }

  function DevicesBlock(spec: DomainSpec, path: string): seq<Token> {
    Block(1, Open("devices", []), DeviceTokens(spec, path))
  }

  lemma DevicesBlocks(spec: DomainSpec, path: string)
    requires PlainChannels(spec.channels)
    ensures var blocks := Blocks(DocumentTokens(spec, path), "devices");
            blocks != [] && blocks[0] == DevicesBlock(spec, path)
  {
    AvoidedDevices();
    hide HeadAvoids, Distinct, PlainName, Plain, StartsTag, Tags, Word, BeforeDevices, DeviceTokens, DocumentTokens,
         Blocks, Block, Framed;
    DocumentParted(spec, path);
    DocumentIsPlain(spec, path);
    BeforeDevicesAvoids(spec, "devices");
    FramePart();
    DevicesNeverClose(spec, path, "devices");
    FramedBlock(BeforeDevices(spec), 1, Open("devices", []), DeviceTokens(spec, path), Line(0, [Close("domain")]),
                "devices");
  }

  lemma {:induction false} InterfacesNeverClose(networks: seq<InterfaceSpec>, name: string)
    requires name == "devices" || name == "graphics"
    ensures NeverCloses(InterfacesTokens(networks), name)
  {
    if networks != [] {
      hide InterfaceTokens;
      InterfacesNeverClose(networks[1..], name);
      InterfaceNeverCloses(networks[0], name);
    }
  }

  lemma InterfaceNeverCloses(network: InterfaceSpec, name: string)
    requires name == "devices" || name == "graphics"
    ensures NeverCloses(InterfaceTokens(network), name)
  {
    hide Tags, Plain, InterfaceTokens, InterfaceBody;
    InterfacePart(network);
    TagsOfFramed(2, InterfaceOpen(network), InterfaceBody(network));
    NeverClosesByTags(InterfaceTokens(network), name);
  }

  lemma {:induction false} ChannelsNeverClose(channels: seq<ChannelSpec>, name: string)
    requires name == "devices" || name == "graphics"
    requires PlainChannels(channels)
    ensures NeverCloses(ChannelsTokens(channels), name)
  {
    if channels != [] {
      hide Tags, Plain, PlainValue, ChannelTokens, Line;
      var target := Line(3, [ChannelTarget(channels[0].name)]);
      ChannelsNeverClose(channels[1..], name);
      ChannelPart(channels[0].name);
      TagsOfFramed(2, CHANNEL_OPEN, target);
      NeverClosesByTags(ChannelTokens(channels[0]), name);
    }
  }

  lemma DevicesNeverClose(spec: DomainSpec, path: string, name: string)
    requires name == "devices" || name == "graphics"
    requires PlainChannels(spec.channels)
    ensures NeverCloses(DeviceTokens(spec, path), name)
  {
    hide Tags, Plain, DiskTokens, InterfacesTokens, ChannelsTokens, DisplayTokens;
    DiskIsFramed(path);
    DiskPart(path);
    TagsOfFramed(2, DISK_OPEN, DiskBody(path));
    NeverClosesByTags(DiskTokens(path), name);
    InterfacesNeverClose(spec.networkInterfaces, name);
    ChannelsNeverClose(spec.channels, name);
    DisplayPart();
    NeverClosesByTags(DisplayTokens(), name);
  }

  lemma BeforeDevicesNeverClosesGraphics(spec: DomainSpec)
    ensures NeverCloses(BeforeDevices(spec), "graphics")
  {
    hide Tags, Plain, IdentityTokens, MemoryTokens, VcpuTokens, OsTokens, PlatformTokens;
    IdentityPart(spec);
    NeverClosesByTags(IdentityTokens(spec), "graphics");
    MemoryPart(spec);
    NeverClosesByTags(MemoryTokens(spec), "graphics");
    VcpuPart(spec);
    NeverClosesByTags(VcpuTokens(spec), "graphics");
    OsIsFramed(spec.firmware);
    OsPart(spec.firmware);
    TagsOfFramed(1, OsOpen(spec.firmware), OsBody(spec.firmware));
    NeverClosesByTags(OsTokens(spec.firmware), "graphics");
    PlatformPart();
    NeverClosesByTags(PlatformTokens(), "graphics");
  }

  /** The graphics element is self-closing, so the block scanner never reports it. */
  lemma NoGraphicsBlocks(spec: DomainSpec, path: string)
    requires PlainChannels(spec.channels)
    ensures Blocks(DocumentTokens(spec, path), "graphics") == []
  {
    hide Distinct, PlainName, Plain, StartsTag, Tags, Word, BeforeDevices, DeviceTokens, Line, Blocks, DocumentTokens,
         NeverCloses;
    GraphicsIsPlain();
    DocumentIsPlain(spec, path);
    BeforeDevicesNeverClosesGraphics(spec);
    DevicesNeverClose(spec, path, "graphics");
    FrameNeverClosesGraphics();
    NoCloseInDocument(spec, path, "graphics");
    NoBlocksWithoutClose(DocumentTokens(spec, path), "graphics");
  }

  lemma GraphicsIsPlain()
    ensures PlainName("graphics")
  {
    PlatformWords();
    WordIsPlain("graphics");
  }

  lemma FrameNeverClosesGraphics()
    ensures NeverCloses(Line(1, [Open("devices", [])]), "graphics")
    ensures NeverCloses(Line(1, [Close("devices")]), "graphics") && NeverCloses(Line(0, [Close("domain")]), "graphics")
  {
    hide Tags, Plain, Line;
    FramePart();
    NeverClosesByTags(Line(1, [Open("devices", [])]), "graphics");
    NeverClosesByTags(Line(1, [Close("devices")]), "graphics");
    NeverClosesByTags(Line(0, [Close("domain")]), "graphics");
  }

  lemma NoCloseInDocument(spec: DomainSpec, path: string, name: string)
    requires NeverCloses(BeforeDevices(spec), name) && NeverCloses(DeviceTokens(spec, path), name)
    requires NeverCloses(Line(1, [Open("devices", [])]), name)
    requires NeverCloses(Line(1, [Close("devices")]), name) && NeverCloses(Line(0, [Close("domain")]), name)
    ensures NeverCloses(DocumentTokens(spec, path), name)
  {
    hide BeforeDevices, DeviceTokens, Line;
  }

  /** No passed-through device or directory is ever printed. */
  lemma NoPassthroughBlocks(spec: DomainSpec, path: string)
    requires PlainChannels(spec.channels)
    ensures Blocks(DevicesBlock(spec, path), "hostdev") == [] && Blocks(DevicesBlock(spec, path), "filesystem") == []
  {
    AvoidedPassthrough();
    hide Distinct, PlainName, Plain, StartsTag, Tags, Word, Blocks, DiskAvoids, InterfaceAvoids, ChannelAvoids,
         DisplayAvoids;
    DevicesBlockAvoids(spec, path, "hostdev");
    DevicesBlockAvoids(spec, path, "filesystem");
    NoBlocks(DevicesBlock(spec, path), "hostdev");
    NoBlocks(DevicesBlock(spec, path), "filesystem");
  }

  lemma DevicesBlockAvoids(spec: DomainSpec, path: string, q: string)
    requires PlainChannels(spec.channels)
    requires PlainName(q) && Distinct("devices", q)
    requires DiskAvoids(q) && InterfaceAvoids(q) && ChannelAvoids(q) && DisplayAvoids(q)
    ensures NoTag(DevicesBlock(spec, path), q)
  {
    hide Distinct, PlainName, Plain, StartsTag, Tags, DiskTokens, InterfacesTokens, ChannelsTokens, DisplayTokens,
         DiskAvoids, InterfaceAvoids, ChannelAvoids, DisplayAvoids;
    FramePart();
    DiskPartAvoids(path, q);
    InterfacesAvoid(spec.networkInterfaces, q);
    ChannelsAvoid(spec.channels, q);
    DisplayPartAvoids(q);
    StartsTagByName(Open("devices", []), q);
    DistinctIsNoPrefix("devices", q);
    ClosesPlainly(Open("devices", []));
    StartsTagByName(Close("devices"), q);
    TextStartsNoTag("\n", q);
    TextStartsNoTag(Indentation(1), q);
  }
}
