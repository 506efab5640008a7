/** Reading the persistent topology back out of domain markup. */
module Topology {
  import opened Results
  import opened Text
  import opened Scanners

  datatype PersistentDisk = PersistentDisk(
    device: string, kind: string, driver: string, format: string,
    source: string, target: string, bus: string, readonly: bool)

  datatype PersistentInterface = PersistentInterface(
    kind: string, model: string, mac: string, source: string, backend: Option<string>)

  datatype PersistentTopology = PersistentTopology(
    machine: string,
    firmwareLoader: Option<string>,
    vcpus: nat,
    memoryKib: nat,
    disks: seq<PersistentDisk>,
    interfaces: seq<PersistentInterface>,
    graphics: seq<string>,
    qgaChannels: nat,
    hostdevs: nat,
    filesystems: nat,
    deviceKinds: seq<string>,
    autostart: bool)

  datatype TopologyError = NoOs | NoMachine | NoVcpu | InvalidVcpu | NoMemory | InvalidMemory

  const SOURCE_KEYS: seq<string> := ["file", "network", "bridge", "dev", "address", "path", "name", "type", "mode"]

  function GetOr(value: Option<string>, default: string): string {
    match value
    case Some(v) => v
    case None => default
  }

  /** The `key=value` fields of a block's source element, in key order. */
  function SourceFields(block: string, keys: seq<string>): seq<string> {
    if keys == [] then []
    else
      (match XmlAttribute(block, "source", keys[0])
       case Some(value) => [keys[0] + "=" + value]
       case None => [])
      + SourceFields(block, keys[1..])
  }

  function Join(fields: seq<string>, separator: string): string {
    if fields == [] then ""
    else if |fields| == 1 then fields[0]
    else fields[0] + separator + Join(fields[1..], separator)
  }

  function SourceIdentity(block: string): string {
    Join(SourceFields(block, SOURCE_KEYS), ";")
  }

  function DiskOf(block: string): PersistentDisk {
    PersistentDisk(
      GetOr(XmlAttribute(block, "disk", "device"), ""),
      GetOr(XmlAttribute(block, "disk", "type"), ""),
      GetOr(XmlAttribute(block, "driver", "name"), ""),
      GetOr(XmlAttribute(block, "driver", "type"), ""),
      GetOr(XmlAttribute(block, "source", "file"), SourceIdentity(block)),
      GetOr(XmlAttribute(block, "target", "dev"), ""),
      GetOr(XmlAttribute(block, "target", "bus"), ""),
      Contains(block, "<readonly"))
  }

  function InterfaceOf(block: string): PersistentInterface {
    PersistentInterface(
      GetOr(XmlAttribute(block, "interface", "type"), ""),
      GetOr(XmlAttribute(block, "model", "type"), ""),
      GetOr(XmlAttribute(block, "mac", "address"), ""),
      SourceIdentity(block),
      XmlAttribute(block, "backend", "type"))
  }

  function GraphicsOf(block: string): string {
    "type=" + GetOr(XmlAttribute(block, "graphics", "type"), "") + ";" + SourceIdentity(block)
  }

  function DisksOf(blocks: seq<string>): seq<PersistentDisk> {
    if blocks == [] then [] else [DiskOf(blocks[0])] + DisksOf(blocks[1..])
  }

  function InterfacesOf(blocks: seq<string>): seq<PersistentInterface> {
    if blocks == [] then [] else [InterfaceOf(blocks[0])] + InterfacesOf(blocks[1..])
  }

  function AllGraphics(blocks: seq<string>): seq<string> {
    if blocks == [] then [] else [GraphicsOf(blocks[0])] + AllGraphics(blocks[1..])
  }

  function GuestAgentChannels(blocks: seq<string>): nat {
    if blocks == [] then 0
    else (if Contains(blocks[0], "org.qemu.guest_agent.0") then 1 else 0) + GuestAgentChannels(blocks[1..])
  }

  const U32_BOUND: nat := 0x1_0000_0000
  const U64_BOUND: nat := 0x1_0000_0000_0000_0000

  /** The first violated requirement, or the whole topology. */
  function ReadTopology(xml: string, autostart: bool): Result<PersistentTopology, TopologyError> {
    var osBlocks := XmlBlocks(xml, "os");
    if osBlocks == [] then Failure(NoOs)
    else
      var machine := XmlAttribute(osBlocks[0], "type", "machine");
      var vcpuText, memoryText := TagText(xml, "vcpu"), TagText(xml, "memory");
      if machine.None? then Failure(NoMachine)
      else if vcpuText.None? then Failure(NoVcpu)
      else if ParseUnsigned(vcpuText.value, U32_BOUND).None? then Failure(InvalidVcpu)
      else if memoryText.None? then Failure(NoMemory)
      else if ParseUnsigned(memoryText.value, U64_BOUND).None? then Failure(InvalidMemory)
      else
        var devicesBlocks := XmlBlocks(xml, "devices");
        var devices := if devicesBlocks == [] then "" else devicesBlocks[0];
        Success(PersistentTopology(
          machine.value,
          TagText(osBlocks[0], "loader"),
          ParseUnsigned(vcpuText.value, U32_BOUND).value,
          ParseUnsigned(memoryText.value, U64_BOUND).value,
          DisksOf(XmlBlocks(xml, "disk")),
          InterfacesOf(XmlBlocks(xml, "interface")),
          AllGraphics(XmlBlocks(xml, "graphics")),
          GuestAgentChannels(XmlBlocks(xml, "channel")),
          |XmlBlocks(devices, "hostdev")|,
          |XmlBlocks(devices, "filesystem")|,
          DirectChildKinds(devices),
          autostart))
  }
}
