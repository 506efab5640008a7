/** The domain specification, its validation, and the deterministic printer of domain markup. */
module DomainXml {
  import opened Results
  import opened Sequences
  import opened Text
  import opened Markup
  import opened Escaping

  const MIB: nat := 1024 * 1024
  const MEMORY_STEP_BYTES: nat := 256 * MIB

  type Word64 = n: nat | n < 0x1_0000_0000_0000_0000
  type Port = n: nat | n < 0x1_0000

  datatype FirmwareMode = Uefi | Bios
  datatype DiskFormat = Qcow2
  datatype DiskBus = Virtio
  datatype GraphicsMode = Virtual | Disabled
  datatype NetworkMode = Nat | IsolatedMode | GatewayMode | WorkstationMode

  datatype DiskSpec = DiskSpec(sourceFile: string, format: DiskFormat, bus: DiskBus, capacityBytes: Word64)

  datatype Endpoint = Gateway | Workstation

  datatype Link = Link(pairId: string, endpoint: Endpoint, localPort: Port, remotePort: Port)

  datatype InterfaceSpec =
    | LibvirtNetwork(mode: NetworkMode, sourceNetwork: string)
    | PasstUplink
    | UdpPointToPoint(link: Link)

  datatype NetworkPolicy = DefaultNat | Isolated | WhonixGateway(link: Link) | WhonixWorkstation(link: Link)

  datatype ChannelSpec = ChannelSpec(name: string)

  /** The architecture, machine type and CPU mode each have one possible value and are left out. */
  datatype DomainSpec = DomainSpec(
    name: string,
    uuid: Option<string>,
    firmware: FirmwareMode,
    vcpus: Word64,
    memoryStartBytes: Word64,
    memoryMaxBytes: Word64,
    disks: seq<DiskSpec>,
    networkInterfaces: seq<InterfaceSpec>,
    networkPolicy: NetworkPolicy,
    channels: seq<ChannelSpec>,
    guestAgentRequired: bool,
    graphics: GraphicsMode,
    hostFilesystems: seq<string>,
    hostDevices: seq<string>)

  datatype SpecError =
    | InvalidName | InvalidUuid | ZeroVcpus | ZeroMemory | StartMemoryExceedsMaximum | UnalignedMemory
    | GpuPolicyMismatch | HostFilesystemPassthrough | HostDevicePassthrough | InvalidDisk
    | NetworkPolicyMismatch | GuestAgentChannelPolicy

  const GUEST_AGENT: string := "org.qemu.guest_agent.0"

  predicate UuidCharacter(c: char) {
    '0' <= c <= '9' || 'a' <= c <= 'f' || 'A' <= c <= 'F' || c == '-'
  }

  predicate ValidUuid(uuid: string) {
    |uuid| == 36 && forall i :: 0 <= i < |uuid| ==> UuidCharacter(uuid[i])
  }

  predicate ValidLink(link: Link) {
    link.localPort != 0 && link.remotePort != 0 && link.localPort != link.remotePort
  }

  predicate ValidNetwork(policy: NetworkPolicy, interfaces: seq<InterfaceSpec>) {
    match policy
    case DefaultNat => interfaces == [LibvirtNetwork(Nat, "default")]
    case Isolated => interfaces == []
    case WhonixGateway(link) =>
      link.endpoint == Gateway && ValidLink(link) && interfaces == [PasstUplink, UdpPointToPoint(link)]
    case WhonixWorkstation(link) =>
      link.endpoint == Workstation && ValidLink(link) && interfaces == [UdpPointToPoint(link)]
  }

  /** The first violated invariant, in the order in which they are checked. */
  function Validate(spec: DomainSpec): Result<(), SpecError> {
    if Trim(spec.name) == "" then Failure(InvalidName)
    else if spec.uuid.Some? && !ValidUuid(spec.uuid.value) then Failure(InvalidUuid)
    else if spec.vcpus == 0 then Failure(ZeroVcpus)
    else if spec.memoryStartBytes == 0 || spec.memoryMaxBytes == 0 then Failure(ZeroMemory)
    else if spec.memoryStartBytes > spec.memoryMaxBytes then Failure(StartMemoryExceedsMaximum)
    else if spec.memoryStartBytes % MEMORY_STEP_BYTES != 0 || spec.memoryMaxBytes % MEMORY_STEP_BYTES != 0 then
      Failure(UnalignedMemory)
    else if spec.graphics != Virtual then Failure(GpuPolicyMismatch)
    else if spec.hostFilesystems != [] then Failure(HostFilesystemPassthrough)
    else if spec.hostDevices != [] then Failure(HostDevicePassthrough)
    else if |spec.disks| != 1 || spec.disks[0].capacityBytes == 0 || !StartsWith(spec.disks[0].sourceFile, "/") then
      Failure(InvalidDisk)
    else if !ValidNetwork(spec.networkPolicy, spec.networkInterfaces) then Failure(NetworkPolicyMismatch)
    else if spec.channels != (if spec.guestAgentRequired then [ChannelSpec(GUEST_AGENT)] else []) then
      Failure(GuestAgentChannelPolicy)
    else Success(())
  }

  // ---------------------------------------------------------------- what is refused, and as what

  /** Something that must not be, and the error for it. */
  datatype Fault = Fault(present: bool, error: SpecError)

  predicate Even(bytes: nat) {
    bytes % 268435456 == 0
  }

  /** The interfaces that each policy asks for, and no others; a link has two different ports, neither of them zero. */
  predicate Connects(spec: DomainSpec) {
    var interfaces := spec.networkInterfaces;
    match spec.networkPolicy
    case DefaultNat => |interfaces| == 1 && interfaces[0] == LibvirtNetwork(Nat, "default")
    case Isolated => |interfaces| == 0
    case WhonixGateway(link) =>
      && |interfaces| == 2 && interfaces[0] == PasstUplink && interfaces[1] == UdpPointToPoint(link)
      && link.endpoint == Gateway
      && link.localPort > 0 && link.remotePort > 0 && link.localPort != link.remotePort
    case WhonixWorkstation(link) =>
      && |interfaces| == 1 && interfaces[0] == UdpPointToPoint(link)
      && link.endpoint == Workstation
      && link.localPort > 0 && link.remotePort > 0 && link.localPort != link.remotePort
  }

  /** Thirty-six characters, each a hexadecimal digit or a dash. */
  predicate IsUuidText(s: string) {
    |s| == 36 && forall c :: c in s ==> '/' < c < ':' || '`' < c < 'g' || '@' < c < 'G' || c == '-'
  }

  /** Everything that a specification is refused for, in turn. */
  function Faults(spec: DomainSpec): seq<Fault> {
    [Fault(Blank(spec.name), InvalidName),
     Fault(spec.uuid.Some? && !IsUuidText(spec.uuid.value), InvalidUuid),
     Fault(spec.vcpus < 1, ZeroVcpus),
     Fault(spec.memoryStartBytes < 1 || spec.memoryMaxBytes < 1, ZeroMemory),
     Fault(spec.memoryMaxBytes < spec.memoryStartBytes, StartMemoryExceedsMaximum),
     Fault(!Even(spec.memoryStartBytes) || !Even(spec.memoryMaxBytes), UnalignedMemory),
     Fault(spec.graphics == Disabled, GpuPolicyMismatch),
     Fault(|spec.hostFilesystems| > 0, HostFilesystemPassthrough),
     Fault(|spec.hostDevices| > 0, HostDevicePassthrough),
     Fault(!(&& |spec.disks| == 1 && spec.disks[0].capacityBytes > 0
             && spec.disks[0].sourceFile != "" && spec.disks[0].sourceFile[0] == '/'), InvalidDisk),
     Fault(!Connects(spec), NetworkPolicyMismatch),
     Fault(!(if spec.guestAgentRequired then |spec.channels| == 1 && spec.channels[0].name == "org.qemu.guest_agent.0"
             else |spec.channels| == 0), GuestAgentChannelPolicy)]
  }

  predicate FirstFault(faults: seq<Fault>, k: int) {
    0 <= k < |faults| && faults[k].present && forall i :: 0 <= i < k ==> !faults[i].present
  }

  lemma UuidTextIff(s: string)
    ensures ValidUuid(s) <==> IsUuidText(s)
  {
    assert forall i :: 0 <= i < |s| ==> s[i] in s;
  }

  lemma ConnectsIff(spec: DomainSpec)
    ensures ValidNetwork(spec.networkPolicy, spec.networkInterfaces) <==> Connects(spec)
  {
  }

  lemma RootedIff(path: string)
    ensures StartsWith(path, "/") <==> path != "" && path[0] == '/'
  {
  }

  /** A specification is valid exactly if it has none of these faults, and else its first one is reported. */
  lemma ValidatedIff(spec: DomainSpec)
    ensures Validate(spec).Success? <==> forall k :: 0 <= k < |Faults(spec)| ==> !Faults(spec)[k].present
    ensures forall k :: FirstFault(Faults(spec), k) ==> Validate(spec) == Failure(Faults(spec)[k].error)
  {
    TrimTrims(spec.name);
    ConnectsIff(spec);
    if spec.uuid.Some? {
      UuidTextIff(spec.uuid.value);
    }
    if |spec.disks| == 1 {
      RootedIff(spec.disks[0].sourceFile);
    }
    hide Trim, Blank, ValidUuid, IsUuidText, ValidNetwork, Connects, StartsWith;
    var f := Faults(spec);
    assert |f| == 12;
    assert (forall k :: 0 <= k < |f| ==> !f[k].present) <==>
      !(|| f[0].present || f[1].present || f[2].present || f[3].present || f[4].present || f[5].present
        || f[6].present || f[7].present || f[8].present || f[9].present || f[10].present || f[11].present);
  }

  // ---------------------------------------------------------------- the document, part by part

  function Indentation(depth: nat): string {
    if depth == 0 then "" else "  " + Indentation(depth - 1)
  }

  function Line(depth: nat, markup: seq<Token>): seq<Token> {
    [Chars(Indentation(depth))] + markup + [Chars("\n")]
  }

  function TextElement(name: string, attributes: seq<Attribute>, text: string): seq<Token> {
    [Open(name, attributes), Chars(text), Close(name)]
  }

  function IdentityTokens(spec: DomainSpec): seq<Token> {
    Line(0, [Open("domain", [Attribute("type", "kvm")])])
    + Line(1, TextElement("name", [], EscapeXml(spec.name)))
    + (if spec.uuid.Some? then Line(1, TextElement("uuid", [], EscapeXml(spec.uuid.value))) else [])
  }

  function MemoryTokens(spec: DomainSpec): seq<Token> {
    Line(1, TextElement("memory", [Attribute("unit", "MiB")], Decimal(spec.memoryMaxBytes / MIB)))
    + Line(1, TextElement("currentMemory", [Attribute("unit", "MiB")], Decimal(spec.memoryStartBytes / MIB)))
  }

  function VcpuTokens(spec: DomainSpec): seq<Token> {
    Line(1, TextElement("vcpu", [Attribute("placement", "static")], Decimal(spec.vcpus)))
  }

  function OsType(): seq<Token> {
    TextElement("type", [Attribute("arch", "x86_64"), Attribute("machine", "q35")], "hvm")
  }

  function OsTokens(firmware: FirmwareMode): seq<Token> {
    match firmware
    case Uefi =>
      Line(1, [Open("os", [Attribute("firmware", "efi")])])
      + Line(2, OsType())
      + Line(2, [Open("firmware", [])])
      + Line(3, [Empty("feature", [Attribute("enabled", "no"), Attribute("name", "secure-boot")])])
      + Line(3, [Empty("feature", [Attribute("enabled", "no"), Attribute("name", "enrolled-keys")])])
      + Line(2, [Close("firmware")])
      + Line(1, [Close("os")])
    case Bios =>
      Line(1, [Open("os", [])]) + Line(2, OsType()) + Line(1, [Close("os")])
  }

  function PlatformTokens(): seq<Token> {
    Line(1, [Open("features", [])])
    + Line(2, [Empty("acpi", [])])
    + Line(2, [Empty("apic", [])])
    + Line(1, [Close("features")])
    + Line(1, [Empty("cpu", [Attribute("mode", "host-passthrough")])])
  }

  function DiskTokens(path: string): seq<Token> {
    Line(2, [Open("disk", [Attribute("type", "file"), Attribute("device", "disk")])])
    + Line(3, [Empty("driver", [Attribute("name", "qemu"), Attribute("type", "qcow2")])])
    + Line(3, [Empty("source", [Attribute("file", EscapeXml(path))])])
    + Line(3, [Empty("target", [Attribute("dev", "vda"), Attribute("bus", "virtio")])])
    + Line(2, [Close("disk")])
  }

  function VirtioModel(): seq<Token> {
    Line(3, [Empty("model", [Attribute("type", "virtio")])])
  }

  function LinkTokens(link: Link): seq<Token> {
    Line(3, [Open("source", [Attribute("address", "127.0.0.1"), Attribute("port", Decimal(link.remotePort))])])
    + Line(4, [Empty("local", [Attribute("address", "127.0.0.1"), Attribute("port", Decimal(link.localPort))])])
    + Line(3, [Close("source")])
  }

  function InterfaceKind(network: InterfaceSpec): string {
    match network
    case LibvirtNetwork(_, _) => "network"
    case PasstUplink => "user"
    case UdpPointToPoint(_) => "udp"
  }

  function InterfaceBody(network: InterfaceSpec): seq<Token> {
    match network
    case LibvirtNetwork(_, source) =>
      Line(3, [Empty("source", [Attribute("network", EscapeXml(source))])]) + VirtioModel()
    case PasstUplink =>
      Line(3, [Empty("backend", [Attribute("type", "passt")])]) + VirtioModel()
    case UdpPointToPoint(link) =>
      LinkTokens(link) + VirtioModel()
  }

  function InterfaceTokens(network: InterfaceSpec): seq<Token> {
    Line(2, [Open("interface", [Attribute("type", InterfaceKind(network))])])
    + InterfaceBody(network)
    + Line(2, [Close("interface")])
  }

  function InterfacesTokens(networks: seq<InterfaceSpec>): seq<Token> {
    if networks == [] then [] else InterfaceTokens(networks[0]) + InterfacesTokens(networks[1..])
  }

  /** Channel names are written as they are, without escaping. */
  function ChannelTokens(channel: ChannelSpec): seq<Token> {
    Line(2, [Open("channel", [Attribute("type", "unix")])])
    + Line(3, [Empty("target", [Attribute("type", "virtio"), Attribute("name", channel.name)])])
    + Line(2, [Close("channel")])
  }

  function ChannelsTokens(channels: seq<ChannelSpec>): seq<Token> {
    if channels == [] then [] else ChannelTokens(channels[0]) + ChannelsTokens(channels[1..])
  }

  function DisplayTokens(): seq<Token> {
    Line(2, [Empty("graphics", [Attribute("type", "spice"), Attribute("autoport", "yes")])])
    + Line(2, [Open("video", [])])
    + Line(3, [Empty("model", [Attribute("type", "virtio"), Attribute("heads", "1"), Attribute("primary", "yes")])])
    + Line(2, [Close("video")])
  }

  /** Everything before the disk's own path attribute and everything after it frames the rest. */
  function BeforeDevices(spec: DomainSpec): seq<Token> {
    IdentityTokens(spec) + MemoryTokens(spec) + VcpuTokens(spec) + OsTokens(spec.firmware) + PlatformTokens()
  }

  function DeviceTokens(spec: DomainSpec, path: string): seq<Token> {
    DiskTokens(path) + InterfacesTokens(spec.networkInterfaces) + ChannelsTokens(spec.channels) + DisplayTokens()
  }

  function DocumentTokens(spec: DomainSpec, path: string): seq<Token> {
    BeforeDevices(spec)
    + Line(1, [Open("devices", [])])
    + DeviceTokens(spec, path)
    + Line(1, [Close("devices")])
    + Line(0, [Close("domain")])
  }

  /** The printed document of a valid specification, or the violated invariant. */
  function RenderXml(spec: DomainSpec): Result<string, SpecError> {
    match Validate(spec)
    case Failure(error) => Failure(error)
    case Success(_) => Success(Print(DocumentTokens(spec, spec.disks[0].sourceFile)))
  }

  // ---------------------------------------------------------------- the writer

  /** Two spaces for each level. */
  lemma {:induction false} IndentationIs(depth: nat)
    ensures Indentation(depth) == seq(2 * depth, _ => ' ')
  {
    if depth > 0 {
      IndentationIs(depth - 1);
      assert seq(2 * depth, _ => ' ') == "  " + seq(2 * (depth - 1), _ => ' ');
    }
  }

  lemma LineText(depth: nat, markup: seq<Token>)
    ensures Print(Line(depth, markup)) == Indentation(depth) + Print(markup) + "\n"
  {
    hide Indentation;
    PrintAppend([Chars(Indentation(depth))] + markup, [Chars("\n")]);
    PrintAppend([Chars(Indentation(depth))], markup);
    PrintCons(Chars(Indentation(depth)), []);
    PrintCons(Chars("\n"), []);
  }

  /** The output buffer, with the tokens printed so far as its abstract value. */
  class XmlWriter {
    var output: string
    ghost var written: seq<Token>

    ghost predicate Valid()
      reads this
    {
      output == Print(written)
    }

    constructor ()
      ensures Valid() && output == "" && written == []
    {
      output := "";
      written := [];
    }

    method WriteLine(depth: nat, markup: seq<Token>)
      requires Valid()
      modifies this
      ensures Valid() && written == old(written) + Line(depth, markup)
    {
      hide Print, Indentation;
      LineText(depth, markup);
      PrintAppend(written, Line(depth, markup));
      assert output + (Indentation(depth) + Print(markup) + "\n") == output + Indentation(depth) + Print(markup) + "\n";
      output := output + Indentation(depth);
      output := output + Print(markup);
      output := output + "\n";
      written := written + Line(depth, markup);
    }

    method WriteIdentity(spec: DomainSpec)
      requires Valid()
      modifies this
      ensures Valid() && written == old(written) + IdentityTokens(spec)
    {
      hide Print, Line;
      WriteLine(0, [Open("domain", [Attribute("type", "kvm")])]);
      WriteLine(1, TextElement("name", [], EscapeXml(spec.name)));
      if spec.uuid.Some? {
        WriteLine(1, TextElement("uuid", [], EscapeXml(spec.uuid.value)));
      }
    }

    method WriteOs(firmware: FirmwareMode)
      requires Valid()
      modifies this
      ensures Valid() && written == old(written) + OsTokens(firmware)
    {
      hide Print, Line;
      match firmware
      case Uefi =>
        WriteLine(1, [Open("os", [Attribute("firmware", "efi")])]);
        WriteLine(2, OsType());
        WriteLine(2, [Open("firmware", [])]);
        WriteLine(3, [Empty("feature", [Attribute("enabled", "no"), Attribute("name", "secure-boot")])]);
        WriteLine(3, [Empty("feature", [Attribute("enabled", "no"), Attribute("name", "enrolled-keys")])]);
        WriteLine(2, [Close("firmware")]);
        WriteLine(1, [Close("os")]);
      case Bios =>
        WriteLine(1, [Open("os", [])]);
        WriteLine(2, OsType());
        WriteLine(1, [Close("os")]);
    }

    method WritePlatform()
      requires Valid()
      modifies this
      ensures Valid() && written == old(written) + PlatformTokens()
    {
      hide Print, Line;
      WriteLine(1, [Open("features", [])]);
      WriteLine(2, [Empty("acpi", [])]);
      WriteLine(2, [Empty("apic", [])]);
      WriteLine(1, [Close("features")]);
      WriteLine(1, [Empty("cpu", [Attribute("mode", "host-passthrough")])]);
    }

    method WriteDisk(path: string)
      requires Valid()
      modifies this
      ensures Valid() && written == old(written) + DiskTokens(path)
    {
      hide Print, Line;
      WriteLine(2, [Open("disk", [Attribute("type", "file"), Attribute("device", "disk")])]);
      WriteLine(3, [Empty("driver", [Attribute("name", "qemu"), Attribute("type", "qcow2")])]);
      WriteLine(3, [Empty("source", [Attribute("file", EscapeXml(path))])]);
      WriteLine(3, [Empty("target", [Attribute("dev", "vda"), Attribute("bus", "virtio")])]);
      WriteLine(2, [Close("disk")]);
    }

    method WriteLink(link: Link)
      requires Valid()
      modifies this
      ensures Valid() && written == old(written) + LinkTokens(link)
    {
      hide Print, Line, Decimal;
      WriteLine(3, [Open("source", [Attribute("address", "127.0.0.1"), Attribute("port", Decimal(link.remotePort))])]);
      WriteLine(4, [Empty("local", [Attribute("address", "127.0.0.1"), Attribute("port", Decimal(link.localPort))])]);
      WriteLine(3, [Close("source")]);
    }

    method WriteInterface(network: InterfaceSpec)
      requires Valid()
      modifies this
      ensures Valid() && written == old(written) + InterfaceTokens(network)
    {
      hide Print, Line, EscapeXml, Decimal;
      WriteLine(2, [Open("interface", [Attribute("type", InterfaceKind(network))])]);
      match network {
        case LibvirtNetwork(_, source) =>
          WriteLine(3, [Empty("source", [Attribute("network", EscapeXml(source))])]);
        case PasstUplink =>
          WriteLine(3, [Empty("backend", [Attribute("type", "passt")])]);
        case UdpPointToPoint(link) => WriteLink(link);
      }
      WriteLine(3, [Empty("model", [Attribute("type", "virtio")])]);
      WriteLine(2, [Close("interface")]);
    }

    method WriteChannel(channel: ChannelSpec)
      requires Valid()
      modifies this
      ensures Valid() && written == old(written) + ChannelTokens(channel)
    {
      hide Print, Line;
      WriteLine(2, [Open("channel", [Attribute("type", "unix")])]);
      WriteLine(3, [Empty("target", [Attribute("type", "virtio"), Attribute("name", channel.name)])]);
      WriteLine(2, [Close("channel")]);
    }

    method WriteInterfaces(networks: seq<InterfaceSpec>)
      requires Valid()
      modifies this
      ensures Valid() && written == old(written) + InterfacesTokens(networks)
    {
      hide Print, InterfaceTokens;
      ghost var start := written;
      var i := 0;
      assert networks[0..] == networks;
      while i < |networks|
        invariant Valid() && i <= |networks|
        invariant written + InterfacesTokens(networks[i..]) == start + InterfacesTokens(networks)
      {
        ghost var before := written;
        WriteInterface(networks[i]);
        assert networks[i..][1..] == networks[i + 1..];
        Associates(before, InterfaceTokens(networks[i]), InterfacesTokens(networks[i + 1..]));
        i := i + 1;
      }
    }

    method WriteChannels(channels: seq<ChannelSpec>)
      requires Valid()
      modifies this
      ensures Valid() && written == old(written) + ChannelsTokens(channels)
    {
      hide Print, ChannelTokens;
      ghost var start := written;
      var i := 0;
      assert channels[0..] == channels;
      while i < |channels|
        invariant Valid() && i <= |channels|
        invariant written + ChannelsTokens(channels[i..]) == start + ChannelsTokens(channels)
      {
        ghost var before := written;
        WriteChannel(channels[i]);
        assert channels[i..][1..] == channels[i + 1..];
        Associates(before, ChannelTokens(channels[i]), ChannelsTokens(channels[i + 1..]));
        i := i + 1;
      }
    }

    method WriteDevices(spec: DomainSpec, path: string)
      requires Valid()
      modifies this
      ensures Valid() && written == old(written) + DeviceTokens(spec, path)
    {
      hide Print, DiskTokens, InterfacesTokens, ChannelsTokens, DisplayTokens;
      WriteDisk(path);
      WriteInterfaces(spec.networkInterfaces);
      WriteChannels(spec.channels);
      WriteDisplay();
      Regrouped(old(written), DiskTokens(path), InterfacesTokens(spec.networkInterfaces), ChannelsTokens(spec.channels),
                DisplayTokens());
    }

    lemma Regrouped(a: seq<Token>, b: seq<Token>, c: seq<Token>, d: seq<Token>, e: seq<Token>)
      ensures a + b + c + d + e == a + (b + c + d + e)
    {
    }

    method WriteDisplay()
      requires Valid()
      modifies this
      ensures Valid() && written == old(written) + DisplayTokens()
    {
      hide Print, Line;
      WriteLine(2, [Empty("graphics", [Attribute("type", "spice"), Attribute("autoport", "yes")])]);
      WriteLine(2, [Open("video", [])]);
      WriteLine(3,
                [Empty("model", [Attribute("type", "virtio"), Attribute("heads", "1"), Attribute("primary", "yes")])]);
      WriteLine(2, [Close("video")]);
    }
  }

  /** Validates, then writes the whole document line by line; an invalid specification yields no text. */
  method Render(spec: DomainSpec) returns (result: Result<string, SpecError>)
    ensures result == RenderXml(spec)
  {
    hide Print, Line, IdentityTokens, OsTokens, PlatformTokens, DeviceTokens;
    var checked := Validate(spec);
    if checked.Failure? {
      return Failure(checked.error);
    }
    var path := spec.disks[0].sourceFile;
    var writer := new XmlWriter();
    writer.WriteIdentity(spec);
    writer.WriteLine(1, TextElement("memory", [Attribute("unit", "MiB")], Decimal(spec.memoryMaxBytes / MIB)));
    writer.WriteLine(1, TextElement("currentMemory", [Attribute("unit", "MiB")], Decimal(spec.memoryStartBytes / MIB)));
    writer.WriteLine(1, TextElement("vcpu", [Attribute("placement", "static")], Decimal(spec.vcpus)));
    writer.WriteOs(spec.firmware);
    writer.WritePlatform();
    assert writer.written == BeforeDevices(spec);
    writer.WriteLine(1, [Open("devices", [])]);
    writer.WriteDevices(spec, path);
    writer.WriteLine(1, [Close("devices")]);
    writer.WriteLine(0, [Close("domain")]);
    assert writer.written == DocumentTokens(spec, path);
    result := Success(writer.output);
  }
}
