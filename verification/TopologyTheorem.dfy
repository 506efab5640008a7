/** Printing and scanning agree: what the topology reader returns for every printed document. */
module TopologyTheorem {
  import opened Results
  import opened Text
  import opened Markup
  import opened Scanners
  import opened ScannerTheorems
  import opened Escaping
  import opened DomainXml
  import opened Topology
  import opened DocumentShape
  import opened DocumentParts
  import opened DocumentBlocks

  // ---------------------------------------------------------------- reading one attribute of a block

  lemma ReadsTag(ts: seq<Token>, i: nat, element: string, key: string)
    requires AllPlain(ts) && PlainName(element) && PlainName(key)
    requires i < |Tags(ts)| && TagWithAttributes(Tags(ts)[i], element) && NoTagWithAttributes(Tags(ts)[..i], element)
    requires Unmistakable(Tags(ts)[i].attributes, key)
    ensures XmlAttribute(Print(ts), element, key) == Lookup(Tags(ts)[i].attributes, key)
  {
    hide Print, Unmistakable, Lookup, Scanned, XmlAttribute, PlainName, Tags;
    FirstWithOfTags(ts, element);
    FirstWithAt(Tags(ts), i, element);
    ReadPrinted(ts, element, key);
    ReadsLookupIff(Tags(ts)[i].attributes, key);
  }

  lemma ReadsNothing(ts: seq<Token>, element: string, key: string)
    requires AllPlain(ts) && PlainName(element) && PlainName(key)
    requires NoTagWithAttributes(Tags(ts), element)
    ensures XmlAttribute(Print(ts), element, key) == None
  {
    hide Print, XmlAttribute, PlainName, Tags;
    FirstWithOfTags(ts, element);
    FirstWithNone(Tags(ts), element);
    ReadPrinted(ts, element, key);
  }

  /** A value that does not end in `=` is never taken for a marker. */
  lemma NoMarkerAtEnd(value: string, key: string)
    requires value == "" || value[|value| - 1] != '='
    ensures !EndsWith(value, key + "=")
  {
    if |key| + 1 <= |value| {
      assert value[|value| - |key| - 1..][|key|] == value[|value| - 1];
    }
  }

  lemma OtherEnd(name: string, key: string)
    requires name != "" && key != "" && name[|name| - 1] != key[|key| - 1]
    ensures !EndsWith(name, key)
  {
    if |key| <= |name| {
      assert name[|name| - |key|..][|key| - 1] == name[|name| - 1];
    }
  }

  /** Attributes whose names cannot be confused with the key and whose values end harmlessly. */
  lemma {:induction false} ClearAttributes(attributes: seq<Attribute>, key: string)
    requires key != ""
    requires forall i :: 0 <= i < |attributes| ==>
               && attributes[i].name != ""
               && (attributes[i].name == key || attributes[i].name[|attributes[i].name| - 1] != key[|key| - 1])
               && (attributes[i].value == "" || attributes[i].value[|attributes[i].value| - 1] != '=')
    ensures Unmistakable(attributes, key)
  {
    if attributes != [] && attributes[0].name != key {
      OtherEnd(attributes[0].name, key);
      NoMarkerAtEnd(attributes[0].value, key);
      ClearAttributes(attributes[1..], key);
    }
  }

  // ---------------------------------------------------------------- operating system and disk

  lemma MachineOfOs(firmware: FirmwareMode)
    ensures XmlAttribute(Print(Block(1, OsOpen(firmware), OsBody(firmware))), "type", "machine") == Some("q35")
  {
    var ts := Block(1, OsOpen(firmware), OsBody(firmware));
    assert PlainName("type") && PlainName("machine") by {
      HeadWords(); OsWords(); WordIsPlain("type"); WordIsPlain("machine");
    }
    OsPart(firmware);
    FramedIsPlain(1, OsOpen(firmware), OsBody(firmware));
    TagsOfFramed(1, OsOpen(firmware), OsBody(firmware));
    assert OsBodyTags(firmware)[0] == Open("type", OS_TYPE_ATTRIBUTES);
    assert Tags(ts)[1] == Open("type", OS_TYPE_ATTRIBUTES);
    OsTypeIsClear();
    hide Print, XmlAttribute, Tags, Unmistakable, Block, PlainName, Plain;
    ReadsTag(ts, 1, "type", "machine");
  }

  lemma OsTypeIsClear()
    ensures Unmistakable(OS_TYPE_ATTRIBUTES, "machine") && Lookup(OS_TYPE_ATTRIBUTES, "machine") == Some("q35")
  {
    OtherEnd("arch", "machine");
    NoMarkerAtEnd("x86_64", "machine");
    assert OS_TYPE_ATTRIBUTES[1..] == [Attribute("machine", "q35")];
  }

  lemma NoLoader(firmware: FirmwareMode)
    ensures TagText(Print(Block(1, OsOpen(firmware), OsBody(firmware))), "loader") == None
  {
    var ts := Block(1, OsOpen(firmware), OsBody(firmware));
    PlatformWords();
    WordIsPlain("loader");
    OsPart(firmware);
    FramedIsPlain(1, OsOpen(firmware), OsBody(firmware));
    LoaderAvoided(firmware);
    hide Print, TagText, Tags, Block, PlainName, Plain, Word, NoTag;
    FramedAvoids(1, OsOpen(firmware), OsBody(firmware), "loader");
    NoText(ts, "loader");
  }

  lemma LoaderAvoided(firmware: FirmwareMode)
    ensures Distinct("os", "loader") && AvoidsName(OsBodyTags(firmware), "loader")
  {
  }

  function DiskView(path: string): PersistentDisk {
    PersistentDisk("disk", "file", "qemu", "qcow2", EscapeXml(path), "vda", "virtio", false)
  }

  function DiskBlock(path: string): seq<Token> {
    Block(2, DISK_OPEN, DiskBody(path))
  }

  lemma DiskBlockTags(path: string)
    ensures AllPlain(DiskBlock(path))
    ensures Tags(DiskBlock(path)) == [DISK_OPEN, DISK_DRIVER, DiskSource(path), DISK_TARGET, Close("disk")]
  {
    hide Tags, Plain, Block;
    DiskPart(path);
    FramedIsPlain(2, DISK_OPEN, DiskBody(path));
    TagsOfFramed(2, DISK_OPEN, DiskBody(path));
  }

  lemma DiskAttributesAreClear()
    ensures Unmistakable(DISK_OPEN.attributes, "device") && Lookup(DISK_OPEN.attributes, "device") == Some("disk")
    ensures Unmistakable(DISK_OPEN.attributes, "type") && Lookup(DISK_OPEN.attributes, "type") == Some("file")
    ensures Unmistakable(DISK_DRIVER.attributes, "name") && Lookup(DISK_DRIVER.attributes, "name") == Some("qemu")
  {
    OtherEndOrMarker("type", "file", "device");
    assert DISK_OPEN.attributes[1..] == [Attribute("device", "disk")];
  }

  /** The names `type` and `device` end alike, so here the whole suffix decides. */
  lemma OtherEndOrMarker(name: string, value: string, key: string)
    requires name == "type" && value == "file" && key == "device"
    ensures !EndsWith(name, key) && !EndsWith(value, key + "=")
  {
    NoMarkerAtEnd(value, key);
  }

  lemma DriverAndTargetAreClear()
    ensures Unmistakable(DISK_DRIVER.attributes, "type") && Lookup(DISK_DRIVER.attributes, "type") == Some("qcow2")
    ensures Unmistakable(DISK_TARGET.attributes, "dev") && Lookup(DISK_TARGET.attributes, "dev") == Some("vda")
    ensures Unmistakable(DISK_TARGET.attributes, "bus") && Lookup(DISK_TARGET.attributes, "bus") == Some("virtio")
  {
    assert !EndsWith("name", "type") by { assert "name"[0..][0] != "type"[0]; }
    NoMarkerAtEnd("qemu", "type");
    assert DISK_DRIVER.attributes[1..] == [Attribute("type", "qcow2")];
    OtherEnd("dev", "bus");
    NoMarkerAtEnd("vda", "bus");
    assert DISK_TARGET.attributes[1..] == [Attribute("bus", "virtio")];
  }

  lemma DiskKeys()
    ensures PlainName("disk") && PlainName("driver") && PlainName("source") && PlainName("target") && PlainName("file")
    ensures PlainName("device") && PlainName("type") && PlainName("name") && PlainName("dev") && PlainName("bus")
  {
    HeadWords();
    DiskWords();
    WordIsPlain("disk"); WordIsPlain("driver"); WordIsPlain("source"); WordIsPlain("target"); WordIsPlain("file");
    WordIsPlain("device"); WordIsPlain("type"); WordIsPlain("name"); WordIsPlain("dev"); WordIsPlain("bus");
  }

  lemma DiskOfBlock(path: string)
    ensures DiskOf(Print(DiskBlock(path))) == DiskView(path)
  {
    hide Print, XmlAttribute, Tags, Unmistakable, Lookup, DiskBlock, PlainName, Plain, EscapeXml, SourceIdentity,
         Contains;
    var ts := DiskBlock(path);
    DiskBlockTags(path);
    DiskKeys();
    DiskAttributesAreClear();
    DriverAndTargetAreClear();
    DiskSourceIsClear(path);
    ReadsTag(ts, 0, "disk", "device");
    ReadsTag(ts, 0, "disk", "type");
    ReadsTag(ts, 1, "driver", "name");
    ReadsTag(ts, 1, "driver", "type");
    ReadsTag(ts, 2, "source", "file");
    ReadsTag(ts, 3, "target", "dev");
    ReadsTag(ts, 3, "target", "bus");
    NotReadonly(path);
  }

  lemma DiskSourceIsClear(path: string)
    ensures Unmistakable(DiskSource(path).attributes, "file")
    ensures Lookup(DiskSource(path).attributes, "file") == Some(EscapeXml(path))
  {
    hide EscapeXml;
  }

  lemma ReadonlyPattern()
    ensures PlainName("readonly") && TagPattern("readonly") && "<" + "readonly" == "<readonly"
    ensures Distinct("disk", "readonly") && Distinct("driver", "readonly") && Distinct("source", "readonly")
    ensures Distinct("target", "readonly")
  {
    DiskWords();
    WordIsPlain("readonly");
    ClosingPattern("readonly");
  }

  lemma NotReadonly(path: string)
    ensures !Contains(Print(DiskBlock(path)), "<readonly")
  {
    hide Print, Tags, PlainName, TagPattern, Plain, Word, NoTag, StartsTag, DiskBlock, EscapeXml, Distinct;
    ReadonlyPattern();
    DiskBlockTags(path);
    NamesAvoid(DiskBlock(path), "readonly");
    DropPast(DiskBlock(path), [], "readonly");
    assert DiskBlock(path) + [] == DiskBlock(path);
    FindTag(DiskBlock(path), "readonly");
  }

  // ---------------------------------------------------------------- interfaces

  /** What the reader makes of an interface: of a link, only the address, never the ports. */
  function InterfaceView(network: InterfaceSpec): PersistentInterface {
    match network
    case LibvirtNetwork(_, source) => PersistentInterface("network", "virtio", "", "network=" + EscapeXml(source), None)
    case PasstUplink => PersistentInterface("user", "virtio", "", "", Some("passt"))
    case UdpPointToPoint(_) => PersistentInterface("udp", "virtio", "", "address=127.0.0.1", None)
  }

  lemma InterfaceBlockTags(network: InterfaceSpec)
    ensures AllPlain(InterfaceBlock(network))
    ensures Tags(InterfaceBlock(network))
         == [InterfaceOpen(network)] + InterfaceBodyTags(network) + [Close("interface")]
  {
    hide Tags, Plain, Block, InterfaceBody, InterfaceTokens;
    InterfacePart(network);
    FramedIsPlain(2, InterfaceOpen(network), InterfaceBody(network));
    TagsOfFramed(2, InterfaceOpen(network), InterfaceBody(network));
  }

  lemma InterfaceKeys()
    ensures PlainName("interface") && PlainName("model") && PlainName("mac") && PlainName("source")
    ensures PlainName("backend")
    ensures PlainName("type") && PlainName("address")
  {
    HeadWords();
    DiskWords();
    InterfaceWords();
    WordIsPlain("interface"); WordIsPlain("model"); WordIsPlain("mac"); WordIsPlain("source"); WordIsPlain("backend");
    WordIsPlain("type"); WordIsPlain("address");
  }

  lemma SourceKeysArePlain()
    ensures forall i :: 0 <= i < |SOURCE_KEYS| ==> PlainName(SOURCE_KEYS[i])
  {
    HeadWords();
    PlatformWords();
    DiskWords();
    InterfaceWords();
    DeviceWords();
    PlainWords(SOURCE_KEYS);
  }

  lemma SingleTypeIsClear(value: string)
    ensures Unmistakable([Attribute("type", value)], "type")
    ensures Lookup([Attribute("type", value)], "type") == Some(value)
  {
  }

  lemma InterfaceKindAndModel(network: InterfaceSpec)
    ensures var block := Print(InterfaceBlock(network));
            && XmlAttribute(block, "interface", "type") == Some(InterfaceKind(network))
            && XmlAttribute(block, "model", "type") == Some("virtio")
            && XmlAttribute(block, "mac", "address") == None
            && XmlAttribute(block, "backend", "type") == if network.PasstUplink? then Some("passt") else None
  {
    hide Print, XmlAttribute, Tags, Unmistakable, Lookup, InterfaceBlock, PlainName, Plain, EscapeXml, Decimal;
    var ts := InterfaceBlock(network);
    InterfaceBlockTags(network);
    InterfaceKeys();
    SingleTypeIsClear(InterfaceKind(network));
    SingleTypeIsClear("virtio");
    SingleTypeIsClear("passt");
    ReadsTag(ts, 0, "interface", "type");
    ReadsTag(ts, if network.UdpPointToPoint? then 4 else 2, "model", "type");
    ReadsNothing(ts, "mac", "address");
    if network.PasstUplink? {
      ReadsTag(ts, 1, "backend", "type");
    } else {
      ReadsNothing(ts, "backend", "type");
    }
  }

  /** The source fields that the attributes of a source tag yield. */
  function FieldsOf(attributes: seq<Attribute>, keys: seq<string>): seq<string> {
    if keys == [] then []
    else
      (match Lookup(attributes, keys[0])
       case Some(value) => [keys[0] + "=" + value]
       case None => [])
      + FieldsOf(attributes, keys[1..])
  }

  lemma {:induction false} SourceFieldsOfTag(ts: seq<Token>, i: nat, keys: seq<string>)
    requires AllPlain(ts) && PlainName("source") && (forall k :: 0 <= k < |keys| ==> PlainName(keys[k]))
    requires i < |Tags(ts)| && TagWithAttributes(Tags(ts)[i], "source") && NoTagWithAttributes(Tags(ts)[..i], "source")
    requires forall k :: 0 <= k < |keys| ==> Unmistakable(Tags(ts)[i].attributes, keys[k])
    ensures SourceFields(Print(ts), keys) == FieldsOf(Tags(ts)[i].attributes, keys)
  {
    hide Print, XmlAttribute, PlainName, Plain, Tags, Unmistakable, Lookup;
    if keys != [] {
      ReadsTag(ts, i, "source", keys[0]);
      SourceFieldsOfTag(ts, i, keys[1..]);
    }
  }

  lemma {:induction false} NoSourceFields(ts: seq<Token>, keys: seq<string>)
    requires AllPlain(ts) && PlainName("source") && (forall k :: 0 <= k < |keys| ==> PlainName(keys[k]))
    requires NoTagWithAttributes(Tags(ts), "source")
    ensures SourceFields(Print(ts), keys) == []
  {
    hide Print, XmlAttribute, PlainName, Plain, Tags;
    if keys != [] {
      ReadsNothing(ts, "source", keys[0]);
      NoSourceFields(ts, keys[1..]);
    }
  }

  lemma {:induction false} FieldsAppend(attributes: seq<Attribute>, a: seq<string>, b: seq<string>)
    ensures FieldsOf(attributes, a + b) == FieldsOf(attributes, a) + FieldsOf(attributes, b)
  {
    if a == [] {
      assert a + b == b;
    } else {
      hide Lookup;
      assert (a + b)[0] == a[0] && (a + b)[1..] == a[1..] + b;
      FieldsAppend(attributes, a[1..], b);
    }
  }

  lemma {:induction false} NoFields(attributes: seq<Attribute>, keys: seq<string>)
    requires forall k :: 0 <= k < |keys| ==> Lookup(attributes, keys[k]) == None
    ensures FieldsOf(attributes, keys) == []
  {
    if keys != [] {
      hide Lookup;
      NoFields(attributes, keys[1..]);
    }
  }

  /** Exactly one of the source keys is carried, at this position in the key list. */
  lemma OneField(attributes: seq<Attribute>, at: nat)
    requires at < |SOURCE_KEYS| && Lookup(attributes, SOURCE_KEYS[at]).Some?
    requires forall k :: 0 <= k < |SOURCE_KEYS| && k != at ==> Lookup(attributes, SOURCE_KEYS[k]) == None
    ensures FieldsOf(attributes, SOURCE_KEYS) == [SOURCE_KEYS[at] + "=" + Lookup(attributes, SOURCE_KEYS[at]).value]
  {
    hide Lookup, SOURCE_KEYS;
    var before, one, after := SOURCE_KEYS[..at], [SOURCE_KEYS[at]], SOURCE_KEYS[at + 1..];
    assert SOURCE_KEYS == before + one + after;
    FieldsAppend(attributes, before, one);
    FieldsAppend(attributes, before + one, after);
    NoFields(attributes, before);
    NoFields(attributes, after);
    assert one[1..] == [];
    assert FieldsOf(attributes, one[1..]) == [];
  }

  lemma NetworkSourceIsClear(value: string)
    requires value == "" || value[|value| - 1] != '='
    ensures var attributes := [Attribute("network", value)];
            && (forall k :: 0 <= k < |SOURCE_KEYS| ==> Unmistakable(attributes, SOURCE_KEYS[k]))
            && Lookup(attributes, "network") == Some(value)
            && forall k :: 0 <= k < |SOURCE_KEYS| && k != 1 ==> Lookup(attributes, SOURCE_KEYS[k]) == None
  {
    var attributes := [Attribute("network", value)];
    forall k | 0 <= k < |SOURCE_KEYS| ensures Unmistakable(attributes, SOURCE_KEYS[k]) {
      ClearAttributes(attributes, SOURCE_KEYS[k]);
    }
    assert attributes[1..] == [];
  }

  lemma LinkSourceIsClear(port: nat)
    ensures var attributes := [Attribute("address", "127.0.0.1"), Attribute("port", Decimal(port))];
            && (forall k :: 0 <= k < |SOURCE_KEYS| ==> Unmistakable(attributes, SOURCE_KEYS[k]))
            && Lookup(attributes, "address") == Some("127.0.0.1")
            && forall k :: 0 <= k < |SOURCE_KEYS| && k != 4 ==> Lookup(attributes, SOURCE_KEYS[k]) == None
  {
    PlainDecimal(port);
    WordIsPlain(Decimal(port));
    hide Decimal, Word;
    var attributes := [Attribute("address", "127.0.0.1"), Attribute("port", Decimal(port))];
    forall k | 0 <= k < |SOURCE_KEYS| ensures Unmistakable(attributes, SOURCE_KEYS[k]) {
      ClearAttributes(attributes, SOURCE_KEYS[k]);
    }
    forall k | 0 <= k < |SOURCE_KEYS| && k != 4 ensures Lookup(attributes, SOURCE_KEYS[k]) == None {
      NoneNamed(attributes, SOURCE_KEYS[k]);
    }
  }

  lemma {:induction false} NoneNamed(attributes: seq<Attribute>, key: string)
    requires forall i :: 0 <= i < |attributes| ==> attributes[i].name != key
    ensures Lookup(attributes, key) == None
  {
    if attributes != [] {
      NoneNamed(attributes[1..], key);
    }
  }

  lemma SourceOfInterface(network: InterfaceSpec)
    requires network.LibvirtNetwork? ==>
               var value := EscapeXml(network.sourceNetwork); value == "" || value[|value| - 1] != '='
    ensures SourceIdentity(Print(InterfaceBlock(network))) == InterfaceView(network).source
  {
    hide Print, XmlAttribute, Tags, Unmistakable, Lookup, InterfaceBlock, PlainName, Plain, EscapeXml, Decimal,
         SourceFields, FieldsOf, SOURCE_KEYS;
    var ts := InterfaceBlock(network);
    InterfaceBlockTags(network);
    InterfaceKeys();
    SourceKeysArePlain();
    SourceKeyNames();
    match network
    case LibvirtNetwork(_, source) =>
      NetworkSourceIsClear(EscapeXml(source));
      SourceFieldsOfTag(ts, 1, SOURCE_KEYS);
      OneField(Tags(ts)[1].attributes, 1);
    case PasstUplink =>
      NoSourceFields(ts, SOURCE_KEYS);
    case UdpPointToPoint(link) =>
      LinkSourceIsClear(link.remotePort);
      SourceFieldsOfTag(ts, 1, SOURCE_KEYS);
      OneField(Tags(ts)[1].attributes, 4);
  }

  lemma SourceKeyNames()
    ensures |SOURCE_KEYS| == 9 && SOURCE_KEYS[1] == "network" && SOURCE_KEYS[4] == "address"
  {
  }

  lemma InterfaceOfBlock(network: InterfaceSpec)
    requires network.LibvirtNetwork? ==>
               var value := EscapeXml(network.sourceNetwork); value == "" || value[|value| - 1] != '='
    ensures InterfaceOf(Print(InterfaceBlock(network))) == InterfaceView(network)
  {
    hide Print, XmlAttribute, InterfaceBlock, EscapeXml, SourceIdentity;
    InterfaceKindAndModel(network);
    SourceOfInterface(network);
  }

  // ---------------------------------------------------------------- channels

  lemma AgentInChannel()
    ensures Contains(Print(ChannelBlock(ChannelSpec(GUEST_AGENT))), "org.qemu.guest_agent.0")
  {
    var target := ChannelTarget(GUEST_AGENT);
    var line := Line(3, [target]);
    hide Print, Indentation, Contains, Show;
    assert ChannelBlock(ChannelSpec(GUEST_AGENT))
        == ([CHANNEL_OPEN, Chars("\n"), Chars(Indentation(3))])
           + ([target] + [Chars("\n"), Chars(Indentation(2)), Close("channel")]);
    PrintAppend([CHANNEL_OPEN, Chars("\n"), Chars(Indentation(3))],
                [target] + [Chars("\n"), Chars(Indentation(2)), Close("channel")]);
    PrintCons(target, [Chars("\n"), Chars(Indentation(2)), Close("channel")]);
    var a, b := SecondValueShown("target", Attribute("type", "virtio"), Attribute("name", GUEST_AGENT));
    var before := Print([CHANNEL_OPEN, Chars("\n"), Chars(Indentation(3))]);
    var after := Print([Chars("\n"), Chars(Indentation(2)), Close("channel")]);
    ContainsMiddle(before, a, GUEST_AGENT, b, after);
  }

  lemma ShowAttributesCons(a: Attribute, rest: seq<Attribute>)
    ensures ShowAttributes([a] + rest) == " " + a.name + "='" + a.value + "'" + ShowAttributes(rest)
  {
    assert ([a] + rest)[1..] == rest;
  }

  /** The printed tag shows the value of its second attribute. */
  lemma SecondValueShown(name: string, p: Attribute, q: Attribute) returns (a: string, b: string)
    ensures Show(Empty(name, [p, q])) == a + q.value + b
  {
    hide ShowAttributes;
    ShowAttributesCons(p, [q]);
    ShowAttributesCons(q, []);
    assert [p] + [q] == [p, q] && [q] + [] == [q];
    var rest := ShowAttributes([]);
    a := "<" + name + (" " + p.name + "='" + p.value + "'" + (" " + q.name + "='"));
    b := "'" + rest + "/>";
    Reassociate("<" + name, " " + p.name + "='" + p.value + "'", " " + q.name + "='", q.value, "'", rest, "/>");
  }

  lemma Reassociate(a: string, b: string, c: string, d: string, e: string, f: string, g: string)
    ensures a + (b + (c + d + e + f)) + g == (a + (b + c)) + d + (e + f + g)
  {
  }

  lemma ContainsMiddle(a: string, b: string, p: string, c: string, d: string)
    ensures Contains(a + ((b + p + c) + d), p)
  {
    var s := a + ((b + p + c) + d);
    assert s[|a| + |b|..|a| + |b| + |p|] == p;
    assert OccursAt(s, p, |a| + |b|);
    FindIsFirst(s, p);
  }

  // ---------------------------------------------------------------- numbers in the head

  lemma VcpuText(spec: DomainSpec, path: string)
    requires PlainChannels(spec.channels)
    ensures TagText(Print(DocumentTokens(spec, path)), "vcpu") == Some(Decimal(spec.vcpus))
  {
    AvoidedNumbers();
    hide Print, TagText, Decimal, Plain, PlainName, Tags, StartsTag, Distinct, IdentityTokens, MemoryTokens, OsTokens,
         PlatformTokens, DeviceTokens, Indentation;
    DocumentIsPlain(spec, path);
    IdentityAvoids(spec, "vcpu");
    MemoryAvoids(spec, "vcpu");
    DecimalLacks(spec.vcpus);
    TrimOfDecimal(spec.vcpus);
    var indent, end := Chars(Indentation(1)), Chars("\n");
    var open := Open("vcpu", VCPU_PLACEMENT);
    var before := IdentityTokens(spec) + MemoryTokens(spec) + [indent];
    var rest := [end] + OsTokens(spec.firmware) + PlatformTokens() + Line(1, [Open("devices", [])])
                + DeviceTokens(spec, path) + Line(1, [Close("devices")]) + Line(0, [Close("domain")]);
    VcpuIsThere(spec, path);
    IndentedAvoids(IdentityTokens(spec) + MemoryTokens(spec), 1, "vcpu");
    PlainVcpu();
    NameStartsTag(open, "vcpu");
    PlainParts(before, [open, Chars(Decimal(spec.vcpus)), Close("vcpu")], rest);
    TextOfElement(before, open, Decimal(spec.vcpus), rest, "vcpu");
  }

  lemma PlainParts(a: seq<Token>, b: seq<Token>, c: seq<Token>)
    requires AllPlain(a + b + c)
    ensures AllPlain(a) && AllPlain(c)
  {
    hide Plain;
    forall i | 0 <= i < |a| ensures Plain(a[i]) {
      assert a[i] == (a + b + c)[i];
    }
    forall i | 0 <= i < |c| ensures Plain(c[i]) {
      assert c[i] == (a + b + c)[|a| + |b| + i];
    }
  }

  lemma IndentedAvoids(ts: seq<Token>, depth: nat, q: string)
    requires NoTag(ts, q)
    ensures NoTag(ts + [Chars(Indentation(depth))], q)
  {
    TextStartsNoTag(Indentation(depth), q);
  }

  lemma PlainVcpu()
    ensures Plain(Open("vcpu", VCPU_PLACEMENT)) && Plain(Open("memory", MEMORY_UNIT))
  {
    HeadWords();
    WordIsPlain("vcpu"); WordIsPlain("memory"); WordAttribute("placement", "static"); WordAttribute("unit", "MiB");
  }

  lemma AvoidedNumbers()
    ensures PlainName("vcpu") && Distinct("domain", "vcpu") && Distinct("name", "vcpu") && Distinct("uuid", "vcpu")
    ensures Distinct("memory", "vcpu") && Distinct("currentMemory", "vcpu")
    ensures PlainName("memory") && Distinct("domain", "memory") && Distinct("name", "memory")
    ensures Distinct("uuid", "memory")
  {
    HeadWords();
    WordIsPlain("vcpu");
    WordIsPlain("memory");
  }

  lemma VcpuIsThere(spec: DomainSpec, path: string)
    ensures DocumentTokens(spec, path)
         == (IdentityTokens(spec) + MemoryTokens(spec) + [Chars(Indentation(1))])
            + [Open("vcpu", VCPU_PLACEMENT), Chars(Decimal(spec.vcpus)), Close("vcpu")]
            + ([Chars("\n")] + OsTokens(spec.firmware) + PlatformTokens() + Line(1, [Open("devices", [])])
               + DeviceTokens(spec, path) + Line(1, [Close("devices")]) + Line(0, [Close("domain")]))
  {
    hide IdentityTokens, MemoryTokens, OsTokens, PlatformTokens, DeviceTokens, Decimal, Indentation;
    var vcpu := [Chars(Indentation(1))] + [Open("vcpu", VCPU_PLACEMENT), Chars(Decimal(spec.vcpus)), Close("vcpu")]
                + [Chars("\n")];
    assert VcpuTokens(spec) == vcpu;
    RegroupAround(IdentityTokens(spec) + MemoryTokens(spec), [Chars(Indentation(1))],
                  [Open("vcpu", VCPU_PLACEMENT), Chars(Decimal(spec.vcpus)), Close("vcpu")], [Chars("\n")],
                  OsTokens(spec.firmware), PlatformTokens(), Line(1, [Open("devices", [])]),
                  DeviceTokens(spec, path), Line(1, [Close("devices")]), Line(0, [Close("domain")]));
  }

  lemma RegroupAround(a: seq<Token>, b: seq<Token>, c: seq<Token>, d: seq<Token>, e: seq<Token>, f: seq<Token>,
                      g: seq<Token>, h: seq<Token>, i: seq<Token>, j: seq<Token>)
    ensures a + (b + c + d) + e + f + g + h + i + j == (a + b) + c + (d + e + f + g + h + i + j)
  {
  }

  lemma MemoryText(spec: DomainSpec, path: string)
    requires PlainChannels(spec.channels)
    ensures TagText(Print(DocumentTokens(spec, path)), "memory") == Some(Decimal(spec.memoryMaxBytes / MIB))
  {
    AvoidedNumbers();
    hide Print, TagText, Decimal, Plain, PlainName, Tags, StartsTag, Distinct, IdentityTokens, VcpuTokens, OsTokens,
         PlatformTokens, DeviceTokens, Indentation;
    var n := spec.memoryMaxBytes / MIB;
    DocumentIsPlain(spec, path);
    IdentityAvoids(spec, "memory");
    DecimalLacks(n);
    TrimOfDecimal(n);
    var indent, end := Chars(Indentation(1)), Chars("\n");
    var open := Open("memory", MEMORY_UNIT);
    var before := IdentityTokens(spec) + [indent];
    var current := Line(1, TextElement("currentMemory", MEMORY_UNIT, Decimal(spec.memoryStartBytes / MIB)));
    var rest := [end] + (current + VcpuTokens(spec) + OsTokens(spec.firmware) + PlatformTokens()
                         + Line(1, [Open("devices", [])])
                         + DeviceTokens(spec, path) + Line(1, [Close("devices")]) + Line(0, [Close("domain")]));
    MemoryIsThere(spec, path);
    IndentedAvoids(IdentityTokens(spec), 1, "memory");
    PlainVcpu();
    NameStartsTag(open, "memory");
    PlainParts(before, [open, Chars(Decimal(n)), Close("memory")], rest);
    TextOfElement(before, open, Decimal(n), rest, "memory");
  }

  lemma MemoryIsThere(spec: DomainSpec, path: string)
    ensures DocumentTokens(spec, path)
         == (IdentityTokens(spec) + [Chars(Indentation(1))])
            + [Open("memory", MEMORY_UNIT), Chars(Decimal(spec.memoryMaxBytes / MIB)), Close("memory")]
            + ([Chars("\n")]
               + (Line(1, TextElement("currentMemory", MEMORY_UNIT, Decimal(spec.memoryStartBytes / MIB)))
                  + VcpuTokens(spec) + OsTokens(spec.firmware) + PlatformTokens() + Line(1, [Open("devices", [])])
                  + DeviceTokens(spec, path) + Line(1, [Close("devices")]) + Line(0, [Close("domain")])))
  {
    hide IdentityTokens, VcpuTokens, OsTokens, PlatformTokens, DeviceTokens, Decimal, Indentation;
    var element := [Open("memory", MEMORY_UNIT), Chars(Decimal(spec.memoryMaxBytes / MIB)), Close("memory")];
    var current := Line(1, TextElement("currentMemory", MEMORY_UNIT, Decimal(spec.memoryStartBytes / MIB)));
    assert MemoryTokens(spec) == [Chars(Indentation(1))] + element + [Chars("\n")] + current;
    RegroupMemory(IdentityTokens(spec), [Chars(Indentation(1))], element, [Chars("\n")], current, VcpuTokens(spec),
                  OsTokens(spec.firmware), PlatformTokens(), Line(1, [Open("devices", [])]), DeviceTokens(spec, path),
                  Line(1, [Close("devices")]), Line(0, [Close("domain")]));
  }

  lemma RegroupMemory(a: seq<Token>, b: seq<Token>, c: seq<Token>, d: seq<Token>, m: seq<Token>, v: seq<Token>,
                      e: seq<Token>, f: seq<Token>, g: seq<Token>, h: seq<Token>, i: seq<Token>, j: seq<Token>)
    ensures a + (b + c + d + m) + v + e + f + g + h + i + j == (a + b) + c + (d + (m + v + e + f + g + h + i + j))
  {
  }

  // ---------------------------------------------------------------- kinds of devices

  function Repeat(x: string, n: nat): seq<string> {
    if n == 0 then [] else [x] + Repeat(x, n - 1)
  }

  /** The direct children of the devices element, in printed order. */
  function PrintedKinds(spec: DomainSpec): seq<string> {
    ["disk"] + Repeat("interface", |spec.networkInterfaces|) + Repeat("channel", |spec.channels|)
    + ["graphics", "video"]
  }

  /** The same kinds in the order of the reader's sort. */
  function SortedKinds(spec: DomainSpec): seq<string> {
    Repeat("channel", |spec.channels|) + ["disk", "graphics"] + Repeat("interface", |spec.networkInterfaces|)
    + ["video"]
  }

  lemma ContainedBody(body: seq<Token>, tags: seq<Token>)
    requires Tags(body) == tags && TokenKinds(tags, 1) == [] && DepthAfter(tags, 1) == 1
    ensures Contained(body)
  {
    hide TokenKinds, DepthAfter, Tags;
    KindsOfTags(body, 1);
  }

  lemma DiskKinds(path: string)
    ensures TokenKinds(DiskTokens(path), 0) == ["disk"] && DepthAfter(DiskTokens(path), 0) == 0
  {
    var tags := [DISK_DRIVER, DiskSource(path), DISK_TARGET];
    FlatTags(tags);
    hide TokenKinds, DepthAfter, Tags, Plain, EscapeXml, DiskTokens;
    DiskIsFramed(path);
    DiskPart(path);
    ContainedBody(DiskBody(path), tags);
    KindsOfFramed(2, DISK_OPEN, DiskBody(path));
  }

  /** Self-closing tags inside an element are not seen and do not nest. */
  lemma {:induction false} FlatTags(tags: seq<Token>)
    requires forall i :: 0 <= i < |tags| ==> tags[i].Empty?
    ensures TokenKinds(tags, 1) == [] && DepthAfter(tags, 1) == 1
  {
    if tags != [] {
      FlatTags(tags[1..]);
    }
  }

  lemma InterfaceKindsAt(n: InterfaceSpec)
    ensures TokenKinds(InterfaceTokens(n), 0) == ["interface"] && DepthAfter(InterfaceTokens(n), 0) == 0
  {
    InterfaceBodyIsFlat(n);
    hide TokenKinds, DepthAfter, Tags, Plain, InterfaceTokens, InterfaceBody, InterfaceBodyTags;
    InterfacePart(n);
    ContainedBody(InterfaceBody(n), InterfaceBodyTags(n));
    KindsOfFramed(2, InterfaceOpen(n), InterfaceBody(n));
  }

  lemma InterfaceBodyIsFlat(n: InterfaceSpec)
    ensures TokenKinds(InterfaceBodyTags(n), 1) == [] && DepthAfter(InterfaceBodyTags(n), 1) == 1
  {
    if n.UdpPointToPoint? {
      LinkTagKinds(LinkSource(n.link), LinkLocal(n.link), INTERFACE_MODEL);
    } else {
      FlatTags(InterfaceBodyTags(n));
    }
  }

  lemma LinkTagKinds(source: Token, local: Token, model: Token)
    requires source.Open? && local.Empty? && model.Empty?
    ensures TokenKinds([source, local, Close("source"), model], 1) == []
    ensures DepthAfter([source, local, Close("source"), model], 1) == 1
  {
    hide TokenKinds, DepthAfter;
    KindsOfOne(source, 1);
    KindsOfOne(local, 2);
    KindsOfOne(Close("source"), 2);
    KindsOfOne(model, 1);
    KindsAppend([source], [local], 1);
    KindsAppend([source] + [local], [Close("source")], 1);
    KindsAppend([source] + [local] + [Close("source")], [model], 1);
    assert [source] + [local] + [Close("source")] + [model] == [source, local, Close("source"), model];
  }

  lemma {:induction false} InterfacesKinds(networks: seq<InterfaceSpec>)
    ensures TokenKinds(InterfacesTokens(networks), 0) == Repeat("interface", |networks|)
    ensures DepthAfter(InterfacesTokens(networks), 0) == 0
  {
    if networks != [] {
      InterfaceKindsAt(networks[0]);
      InterfacesKinds(networks[1..]);
      hide TokenKinds, DepthAfter, InterfaceTokens;
      KindsAppend(InterfaceTokens(networks[0]), InterfacesTokens(networks[1..]), 0);
    }
  }

  lemma {:induction false} ChannelsKinds(channels: seq<ChannelSpec>)
    requires PlainChannels(channels)
    ensures TokenKinds(ChannelsTokens(channels), 0) == Repeat("channel", |channels|)
    ensures DepthAfter(ChannelsTokens(channels), 0) == 0
  {
    if channels != [] {
      var target := Line(3, [ChannelTarget(channels[0].name)]);
      FlatTags([ChannelTarget(channels[0].name)]);
      ChannelsKinds(channels[1..]);
      hide TokenKinds, DepthAfter, ChannelTokens, Tags, Plain, PlainValue, Line;
      ChannelPart(channels[0].name);
      ContainedBody(target, [ChannelTarget(channels[0].name)]);
      KindsOfFramed(2, CHANNEL_OPEN, target);
      KindsAppend(ChannelTokens(channels[0]), ChannelsTokens(channels[1..]), 0);
    }
  }

  lemma DisplayKinds()
    ensures TokenKinds(DisplayTokens(), 0) == ["graphics", "video"] && DepthAfter(DisplayTokens(), 0) == 0
  {
    DisplayTagKinds();
    hide TokenKinds, DepthAfter, Tags, Plain, DisplayTokens;
    DisplayPart();
    KindsOfTags(DisplayTokens(), 0);
  }

  lemma DisplayTagKinds()
    ensures var tags := [GRAPHICS, Open("video", []), VIDEO_MODEL, Close("video")];
            TokenKinds(tags, 0) == ["graphics", "video"] && DepthAfter(tags, 0) == 0
  {
    hide TokenKinds, DepthAfter;
    var open, close := Open("video", []), Close("video");
    KindsOfOne(GRAPHICS, 0);
    KindsOfOne(open, 0);
    KindsOfOne(VIDEO_MODEL, 1);
    KindsOfOne(close, 1);
    KindsAppend([GRAPHICS], [open], 0);
    KindsAppend([GRAPHICS] + [open], [VIDEO_MODEL], 0);
    KindsAppend([GRAPHICS] + [open] + [VIDEO_MODEL], [close], 0);
    assert [GRAPHICS] + [open] + [VIDEO_MODEL] + [close] == [GRAPHICS, open, VIDEO_MODEL, close];
  }

  lemma DeviceKinds(spec: DomainSpec, path: string)
    requires PlainChannels(spec.channels)
    ensures TokenKinds(DeviceTokens(spec, path), 0) == PrintedKinds(spec)
    ensures DepthAfter(DeviceTokens(spec, path), 0) == 0
  {
    hide TokenKinds, DepthAfter, DiskTokens, InterfacesTokens, ChannelsTokens, DisplayTokens, Repeat;
    DiskKinds(path);
    InterfacesKinds(spec.networkInterfaces);
    ChannelsKinds(spec.channels);
    DisplayKinds();
    var disk, interfaces, channels := DiskTokens(path), InterfacesTokens(spec.networkInterfaces),
                                      ChannelsTokens(spec.channels);
    KindsAppend(disk, interfaces, 0);
    KindsAppend(disk + interfaces, channels, 0);
    KindsAppend(disk + interfaces + channels, DisplayTokens(), 0);
  }

  lemma KindsOfDevicesBlock(spec: DomainSpec, path: string)
    requires PlainChannels(spec.channels)
    ensures DirectChildKinds(Print(DevicesBlock(spec, path))) == SortedKinds(spec)
  {
    hide TokenKinds, DepthAfter, DirectChildKinds, Print, DeviceTokens, Plain, Sorted, PrintedKinds, SortedKinds,
         BracketFree;
    DocumentIsPlain(spec, path);
    FramePart();
    FramedIsPlain(1, Open("devices", []), DeviceTokens(spec, path));
    var content := BlockContent(1, DeviceTokens(spec, path)) + [Close("devices")];
    assert DevicesBlock(spec, path) == [Open("devices", [])] + content;
    AllPlainIsBracketFree([Open("devices", [])] + content);
    KindsAfterOpening(Open("devices", []), content);
    ContentKinds(spec, path);
    KindsSort(spec);
  }

  lemma ContentKinds(spec: DomainSpec, path: string)
    requires PlainChannels(spec.channels)
    ensures TokenKinds(BlockContent(1, DeviceTokens(spec, path)) + [Close("devices")], 0) == PrintedKinds(spec)
  {
    hide TokenKinds, DepthAfter, DeviceTokens, PrintedKinds;
    DeviceKinds(spec, path);
    var devices := DeviceTokens(spec, path);
    KindsOfOne(Chars("\n"), 0);
    KindsOfOne(Chars(Indentation(1)), 0);
    KindsOfOne(Close("devices"), 0);
    KindsAppend([Chars("\n")], devices, 0);
    KindsAppend([Chars("\n")] + devices, [Chars(Indentation(1))], 0);
    KindsAppend(BlockContent(1, devices), [Close("devices")], 0);
  }

  lemma {:induction false} RepeatCounts(x: string, n: nat)
    ensures |Repeat(x, n)| == n && forall i :: 0 <= i < n ==> Repeat(x, n)[i] == x
  {
    if n > 0 {
      RepeatCounts(x, n - 1);
    }
  }

  lemma {:induction false} SortedAfterRepeat(x: string, n: nat, rest: seq<string>)
    requires IsSorted(rest) && (rest == [] || LessOrEqual(x, rest[0]))
    ensures IsSorted(Repeat(x, n) + rest)
    ensures n > 0 ==> (Repeat(x, n) + rest)[0] == x
    ensures n == 0 ==> Repeat(x, n) + rest == rest
  {
    if n > 0 {
      SortedAfterRepeat(x, n - 1, rest);
      TotalOrder(x, x);
      assert (Repeat(x, n) + rest)[1..] == Repeat(x, n - 1) + rest;
    } else {
      assert Repeat(x, n) + rest == rest;
    }
  }

  /** The reader's kinds are a permutation of the printed ones, in order. */
  lemma KindsSort(spec: DomainSpec)
    ensures Sorted(PrintedKinds(spec)) == SortedKinds(spec)
  {
    var channels, interfaces := Repeat("channel", |spec.channels|), Repeat("interface", |spec.networkInterfaces|);
    SortedKindsAreSorted(spec);
    assert multiset(SortedKinds(spec)) == multiset(PrintedKinds(spec)) by {
      assert ["disk", "graphics"] == ["disk"] + ["graphics"];
      assert ["graphics", "video"] == ["graphics"] + ["video"];
    }
    SortedSorts(PrintedKinds(spec));
    SortedIsUnique(Sorted(PrintedKinds(spec)), SortedKinds(spec));
  }

  lemma KindOrder()
    ensures LessOrEqual("interface", "video") && LessOrEqual("graphics", "interface")
    ensures LessOrEqual("graphics", "video")
    ensures LessOrEqual("disk", "graphics") && LessOrEqual("channel", "disk")
  {
  }

  lemma SortedCons(x: string, rest: seq<string>)
    requires IsSorted(rest) && (rest == [] || LessOrEqual(x, rest[0]))
    ensures IsSorted([x] + rest) && ([x] + rest)[0] == x
  {
    hide LessOrEqual;
    assert ([x] + rest)[1..] == rest;
  }

  lemma SortedKindsAreSorted(spec: DomainSpec)
    ensures IsSorted(SortedKinds(spec))
  {
    KindOrder();
    hide LessOrEqual, Repeat, IsSorted;
    SortedCons("video", []) by { assert IsSorted([]) by { NothingIsSorted(); } }
    assert ["video"] + [] == ["video"];
    SortedAfterRepeat("interface", |spec.networkInterfaces|, ["video"]);
    var third := Repeat("interface", |spec.networkInterfaces|) + ["video"];
    SortedCons("graphics", third);
    SortedCons("disk", ["graphics"] + third);
    var second := ["disk"] + (["graphics"] + third);
    SortedAfterRepeat("channel", |spec.channels|, second);
    assert SortedKinds(spec) == Repeat("channel", |spec.channels|) + second;
  }

  lemma NothingIsSorted()
    ensures IsSorted([])
  {
  }

  // ---------------------------------------------------------------- the theorem

  function InterfaceViews(networks: seq<InterfaceSpec>): seq<PersistentInterface> {
    if networks == [] then [] else [InterfaceView(networks[0])] + InterfaceViews(networks[1..])
  }

  /** The topology a specification stands for. Memory is read in the unit it was printed in, MiB. */
  function ExpectedTopology(spec: DomainSpec, path: string, autostart: bool): PersistentTopology {
    PersistentTopology(
      "q35", None, spec.vcpus, spec.memoryMaxBytes / MIB,
      [DiskView(path)], InterfaceViews(spec.networkInterfaces), [], |spec.channels|, 0, 0, SortedKinds(spec), autostart)
  }

  predicate QuietSources(networks: seq<InterfaceSpec>) {
    forall i :: 0 <= i < |networks| && networks[i].LibvirtNetwork? ==>
      var value := EscapeXml(networks[i].sourceNetwork); value == "" || value[|value| - 1] != '='
  }

  lemma {:induction false} InterfacesOfBlocks(networks: seq<InterfaceSpec>)
    requires QuietSources(networks)
    ensures InterfacesOf(PrintAll(InterfaceBlocks(networks))) == InterfaceViews(networks)
  {
    if networks != [] {
      hide InterfaceOf, Print, EscapeXml, InterfaceBlock;
      InterfaceOfBlock(networks[0]);
      InterfacesOfBlocks(networks[1..]);
      PrintAllCons(InterfaceBlock(networks[0]), InterfaceBlocks(networks[1..]));
    }
  }

  lemma {:induction false} AgentsOfBlocks(channels: seq<ChannelSpec>)
    requires forall i :: 0 <= i < |channels| ==> channels[i] == ChannelSpec(GUEST_AGENT)
    ensures GuestAgentChannels(PrintAll(ChannelBlocks(channels))) == |channels|
  {
    if channels != [] {
      hide Contains, Print, ChannelBlock;
      AgentInChannel();
      AgentsOfBlocks(channels[1..]);
      PrintAllCons(ChannelBlock(channels[0]), ChannelBlocks(channels[1..]));
    }
  }

  lemma FirstPrinted(blocks: seq<seq<Token>>)
    requires blocks != []
    ensures PrintAll(blocks) != [] && PrintAll(blocks)[0] == Print(blocks[0])
  {
    hide Print;
  }

  lemma DefaultNetworkIsQuiet()
    ensures EscapeXml("default") == "default" && "default"[|"default"| - 1] != '='
  {
    hide EscapeXml;
    EscapeChangesNothingIff("default");
  }

  lemma ValidInterfaces(policy: NetworkPolicy, networks: seq<InterfaceSpec>)
    requires ValidNetwork(policy, networks)
    ensures QuietSources(networks)
  {
    DefaultNetworkIsQuiet();
    hide EscapeXml;
  }

  lemma AgentIsPlain()
    ensures PlainValue(GUEST_AGENT)
  {
    DeviceWords();
    WordIsPlain(GUEST_AGENT);
  }

  lemma ValidParts(spec: DomainSpec)
    requires Validate(spec).Success?
    ensures ValidNetwork(spec.networkPolicy, spec.networkInterfaces)
    ensures spec.channels == [] || spec.channels == [ChannelSpec(GUEST_AGENT)]
    ensures |spec.disks| == 1
    ensures RenderXml(spec) == Success(Print(DocumentTokens(spec, spec.disks[0].sourceFile)))
  {
    hide Trim, ValidUuid, StartsWith, ValidNetwork, Print, DocumentTokens;
  }

  /** Only valid specifications are rendered. */
  lemma RenderedIsValid(spec: DomainSpec, xml: string)
    requires RenderXml(spec) == Success(xml)
    ensures Validate(spec).Success? && |spec.disks| == 1 && xml == Print(DocumentTokens(spec, spec.disks[0].sourceFile))
  {
    hide Validate, Print, DocumentTokens;
    ValidParts(spec);
  }

  /** Valid specifications name the default network, and only the guest agent's channel. */
  lemma ValidSources(spec: DomainSpec)
    requires Validate(spec).Success?
    ensures QuietSources(spec.networkInterfaces) && PlainChannels(spec.channels)
    ensures forall i :: 0 <= i < |spec.channels| ==> spec.channels[i] == ChannelSpec(GUEST_AGENT)
  {
    hide Validate, ValidNetwork, QuietSources, RenderXml, PlainValue, GUEST_AGENT, EscapeXml, Print, DocumentTokens;
    ValidParts(spec);
    ValidInterfaces(spec.networkPolicy, spec.networkInterfaces);
    AgentIsPlain();
  }

  lemma FirstDisk(path: string)
    ensures DisksOf([Print(DiskBlock(path))]) == [DiskView(path)]
  {
    hide Print, DiskOf, DiskView, DiskBlock;
    DiskOfBlock(path);
    assert [Print(DiskBlock(path))][1..] == [];
  }

  lemma OsPartOfDocument(spec: DomainSpec, path: string)
    requires PlainChannels(spec.channels)
    ensures var blocks := XmlBlocks(Print(DocumentTokens(spec, path)), "os");
            && blocks != []
            && XmlAttribute(blocks[0], "type", "machine") == Some("q35")
            && TagText(blocks[0], "loader") == None
  {
    AvoidedOs();
    hide Print, XmlBlocks, XmlAttribute, TagText, Blocks, Block, DocumentTokens, PlainName, Plain, Distinct;
    DocumentIsPlain(spec, path);
    BlocksOfPrint(DocumentTokens(spec, path), "os");
    OsBlocks(spec, path);
    FirstPrinted(Blocks(DocumentTokens(spec, path), "os"));
    MachineOfOs(spec.firmware);
    NoLoader(spec.firmware);
  }

  lemma DevicesOfDocument(spec: DomainSpec, path: string)
    requires PlainChannels(spec.channels)
    ensures var blocks := XmlBlocks(Print(DocumentTokens(spec, path)), "devices");
            && blocks != []
            && XmlBlocks(blocks[0], "hostdev") == [] && XmlBlocks(blocks[0], "filesystem") == []
            && DirectChildKinds(blocks[0]) == SortedKinds(spec)
  {
    AvoidedDevices();
    AvoidedPassthrough();
    hide Print, XmlBlocks, Blocks, Block, DocumentTokens, DeviceTokens, PlainName, Plain, Distinct, DirectChildKinds,
         SortedKinds, HeadAvoids, DiskAvoids, InterfaceAvoids, ChannelAvoids, DisplayAvoids;
    DocumentIsPlain(spec, path);
    BlocksOfPrint(DocumentTokens(spec, path), "devices");
    DevicesBlocks(spec, path);
    FirstPrinted(Blocks(DocumentTokens(spec, path), "devices"));
    FramePart();
    FramedIsPlain(1, Open("devices", []), DeviceTokens(spec, path));
    NoPassthroughBlocks(spec, path);
    BlocksOfPrint(DevicesBlock(spec, path), "hostdev");
    BlocksOfPrint(DevicesBlock(spec, path), "filesystem");
    NothingPrinted();
    KindsOfDevicesBlock(spec, path);
  }

  lemma NothingPrinted()
    ensures PrintAll([]) == []
  {
  }

  lemma ElementsOfDocument(spec: DomainSpec, path: string)
    requires Validate(spec).Success?
    ensures var xml := Print(DocumentTokens(spec, path));
            && DisksOf(XmlBlocks(xml, "disk")) == [DiskView(path)]
            && InterfacesOf(XmlBlocks(xml, "interface")) == InterfaceViews(spec.networkInterfaces)
            && AllGraphics(XmlBlocks(xml, "graphics")) == []
            && GuestAgentChannels(XmlBlocks(xml, "channel")) == |spec.channels|
  {
    AvoidedDisk();
    AvoidedInterface();
    AvoidedChannel();
    assert PlainName("graphics") by { PlatformWords(); WordIsPlain("graphics"); }
    ValidSources(spec);
    hide Print, XmlBlocks, Blocks, Block, DocumentTokens, PlainName, Plain, Distinct, HeadAvoids, DiskAvoids,
         InterfaceAvoids, ChannelAvoids, DisplayAvoids, DisksOf, DiskView, InterfacesOf, InterfaceViews,
         GuestAgentChannels, Validate, QuietSources, PlainChannels, InterfaceBlocks, ChannelBlocks, PrintAll, DiskBody;
    DocumentIsPlain(spec, path);
    var ts := DocumentTokens(spec, path);
    BlocksOfPrint(ts, "disk");
    DiskBlocks(spec, path);
    PrintAllOne(DiskBlock(path));
    FirstDisk(path);
    BlocksOfPrint(ts, "interface");
    InterfaceBlocksOfDocument(spec, path);
    InterfacesOfBlocks(spec.networkInterfaces);
    BlocksOfPrint(ts, "graphics");
    NoGraphicsBlocks(spec, path);
    NothingPrinted();
    BlocksOfPrint(ts, "channel");
    ChannelBlocksOfDocument(spec, path);
    AgentsOfBlocks(spec.channels);
  }

  lemma PrintAllOne(block: seq<Token>)
    ensures PrintAll([block]) == [Print(block)]
  {
    hide Print;
    PrintAllCons(block, []);
    assert [block] + [] == [block];
  }

  /** The reader's result, put together from what it finds in the parts of a document. */
  lemma Assembled(xml: string, vcpus: nat, memory: nat, disks: seq<PersistentDisk>,
                  interfaces: seq<PersistentInterface>, agents: nat, kinds: seq<string>, autostart: bool)
    requires XmlBlocks(xml, "os") != []
    requires XmlAttribute(XmlBlocks(xml, "os")[0], "type", "machine") == Some("q35")
    requires TagText(XmlBlocks(xml, "os")[0], "loader") == None
    requires TagText(xml, "vcpu") == Some(Decimal(vcpus)) && TagText(xml, "memory") == Some(Decimal(memory))
    requires memory < U64_BOUND
    requires DisksOf(XmlBlocks(xml, "disk")) == disks && InterfacesOf(XmlBlocks(xml, "interface")) == interfaces
    requires AllGraphics(XmlBlocks(xml, "graphics")) == [] && GuestAgentChannels(XmlBlocks(xml, "channel")) == agents
    requires XmlBlocks(xml, "devices") != []
    requires XmlBlocks(XmlBlocks(xml, "devices")[0], "hostdev") == []
    requires XmlBlocks(XmlBlocks(xml, "devices")[0], "filesystem") == []
    requires DirectChildKinds(XmlBlocks(xml, "devices")[0]) == kinds
    ensures ReadTopology(xml, autostart)
         == if vcpus < U32_BOUND then
              Success(PersistentTopology("q35", None, vcpus, memory, disks, interfaces, [], agents, 0, 0, kinds,
                                         autostart))
            else Failure(InvalidVcpu)
  {
    hide XmlBlocks, XmlAttribute, TagText, DisksOf, InterfacesOf, AllGraphics, GuestAgentChannels, DirectChildKinds,
         Decimal, ParseUnsigned;
    ParseOfDecimal(vcpus, U32_BOUND);
    ParseOfDecimal(memory, U64_BOUND);
  }

  /**
   Round trip: the topology read from the document of any valid specification is the specification's
   own, with any name and any disk path, exactly when the processor count fits the reader's 32 bits;
   otherwise the reader refuses the count. The disk path comes back in its escaped form.
   */
  lemma RenderedTopology(spec: DomainSpec, xml: string, autostart: bool)
    requires RenderXml(spec) == Success(xml)
    ensures |spec.disks| == 1
    ensures ReadTopology(xml, autostart)
         == if spec.vcpus < U32_BOUND then Success(ExpectedTopology(spec, spec.disks[0].sourceFile, autostart))
            else Failure(InvalidVcpu)
  {
    hide Print, XmlBlocks, XmlAttribute, TagText, DocumentTokens, DisksOf, DiskView, InterfacesOf, InterfaceViews,
         AllGraphics, GuestAgentChannels, DirectChildKinds, SortedKinds, Decimal, ParseUnsigned, Validate, RenderXml,
         ReadTopology, QuietSources, PlainChannels, EscapeXml;
    RenderedIsValid(spec, xml);
    var path := spec.disks[0].sourceFile;
    ValidSources(spec);
    OsPartOfDocument(spec, path);
    VcpuText(spec, path);
    MemoryText(spec, path);
    DevicesOfDocument(spec, path);
    ElementsOfDocument(spec, path);
    Assembled(xml, spec.vcpus, spec.memoryMaxBytes / MIB, [DiskView(path)], InterfaceViews(spec.networkInterfaces),
              |spec.channels|, SortedKinds(spec), autostart);
  }

  /** A small machine without network and guest agent. */
  function SampleSpec(path: string, vcpus: Word64): DomainSpec {
    DomainSpec("vm", None, Bios, vcpus, MEMORY_STEP_BYTES, MEMORY_STEP_BYTES, [DiskSpec(path, Qcow2, Virtio, 1)],
               [], Isolated, [], false, Virtual, [], [])
  }

  lemma SampleIsValid(path: string, vcpus: Word64)
    requires StartsWith(path, "/") && vcpus > 0
    ensures Validate(SampleSpec(path, vcpus)) == Success(())
    ensures RenderXml(SampleSpec(path, vcpus)) == Success(Print(DocumentTokens(SampleSpec(path, vcpus), path)))
  {
    hide Print, DocumentTokens;
    assert Trim("vm") == "vm" by { assert !IsWhitespace("vm"[0]) && !IsWhitespace("vm"[1]); }
  }

  /** A document that is printed and that the reader refuses: it counts 2^32 processors. */
  lemma CountThatIsRefused(autostart: bool)
    ensures var rendered := RenderXml(SampleSpec("/d", U32_BOUND));
            rendered.Success? && ReadTopology(rendered.value, autostart) == Failure(InvalidVcpu)
  {
    hide RenderXml, Validate, ReadTopology, Print, DocumentTokens;
    SampleIsValid("/d", U32_BOUND);
    var rendered := RenderXml(SampleSpec("/d", U32_BOUND));
    RenderedTopology(SampleSpec("/d", U32_BOUND), rendered.value, autostart);
  }

  /**
   What the reader reports as kibibytes are the mebibytes printed: times 2^20 they are the bytes of the
   specification, and times 2^10, as their name says, they never are.
   */
  lemma MemoryComesBackAsMebibytes(spec: DomainSpec, xml: string, autostart: bool, read: PersistentTopology)
    requires RenderXml(spec) == Success(xml) && ReadTopology(xml, autostart) == Success(read)
    ensures read.memoryKib == spec.memoryMaxBytes / MIB
    ensures read.memoryKib * MIB == spec.memoryMaxBytes
    ensures read.memoryKib * 1024 != spec.memoryMaxBytes
  {
    hide ReadTopology, RenderXml, SortedKinds, InterfaceViews, DiskView;
    RenderedTopology(spec, xml, autostart);
    RenderedIsValid(spec, xml);
    ValidMemoryMaximum(spec);
    hide MIB, Validate, ExpectedTopology;
    NotKibibytes(spec.memoryMaxBytes / MIB, spec.memoryMaxBytes);
  }

  lemma NotKibibytes(mebibytes: nat, bytes: nat)
    requires mebibytes * MIB == bytes && bytes > 0
    ensures mebibytes * 1024 != bytes
  {
  }

  lemma ValidMemoryMaximum(spec: DomainSpec)
    requires Validate(spec).Success?
    ensures spec.memoryMaxBytes > 0 && spec.memoryMaxBytes / MIB * MIB == spec.memoryMaxBytes
  {
    hide MEMORY_STEP_BYTES, MIB;
    ValidMemory(spec);
    hide Validate;
    WholeMebibytes(spec.memoryMaxBytes);
  }

  lemma ValidMemory(spec: DomainSpec)
    requires Validate(spec).Success?
    ensures spec.memoryMaxBytes > 0
    ensures spec.memoryStartBytes % MEMORY_STEP_BYTES == 0 && spec.memoryMaxBytes % MEMORY_STEP_BYTES == 0
  {
    hide Trim, ValidUuid, StartsWith, ValidNetwork;
  }

  lemma WholeMebibytes(bytes: nat)
    requires bytes % MEMORY_STEP_BYTES == 0
    ensures bytes / MIB * MIB == bytes
  {
    assert bytes % MIB == 0;
  }

  /** The path itself comes back exactly when it has no character that markup escapes. */
  lemma PathComesBackIff(spec: DomainSpec, xml: string, autostart: bool, read: PersistentTopology)
    requires RenderXml(spec) == Success(xml) && ReadTopology(xml, autostart) == Success(read)
    ensures |spec.disks| == 1 && |read.disks| == 1
    ensures read.disks[0].source == spec.disks[0].sourceFile <==> Unspecial(spec.disks[0].sourceFile)
  {
    hide ReadTopology, RenderXml, EscapeXml, Unspecial;
    RenderedTopology(spec, xml, autostart);
    EscapeChangesNothingIff(spec.disks[0].sourceFile);
  }

  /** A path that does not come back: the ampersand is read in its escaped form. */
  lemma PathThatIsReadEscaped(autostart: bool)
    ensures var rendered := RenderXml(SampleSpec("/&", 1));
            && rendered.Success? && ReadTopology(rendered.value, autostart).Success?
            && |ReadTopology(rendered.value, autostart).value.disks| == 1
            && ReadTopology(rendered.value, autostart).value.disks[0].source != "/&"
  {
    hide RenderXml, Validate, ReadTopology, Print, DocumentTokens;
    SampleIsValid("/&", 1);
    var rendered := RenderXml(SampleSpec("/&", 1));
    RenderedTopology(SampleSpec("/&", 1), rendered.value, autostart);
    assert Special("/&"[1]);
    PathComesBackIff(SampleSpec("/&", 1), rendered.value, autostart, ReadTopology(rendered.value, autostart).value);
  }

  /** Two links that differ in their ports alone are one and the same topology to the reader. */
  lemma PortsAreNotRead(a: Link, b: Link)
    ensures InterfaceOf(Print(InterfaceBlock(UdpPointToPoint(a))))
         == InterfaceOf(Print(InterfaceBlock(UdpPointToPoint(b))))
  {
    hide InterfaceOf, Print, InterfaceBlock;
    InterfaceOfBlock(UdpPointToPoint(a));
    InterfaceOfBlock(UdpPointToPoint(b));
  }
}
