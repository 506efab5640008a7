/**
 What the topology reader returns for any printed document, not only for those that are rendered here:
 every field and every refusal, on the document's tokens, and the counts on its element tree.
 */
module TopologyTokens {
  import opened Results
  import opened Text
  import opened Markup
  import opened Scanners
  import opened ScannerTheorems
  import opened Topology
  import opened DocumentShape

  // ---------------------------------------------------------------- text and marks on tokens

  /** The text from the first tag whose name starts like this up to the next closing tag of the very name. */
  function TextWithin(ts: seq<Token>, tag: string): Option<string> {
    var from := DropTo(ts, tag);
    if from == [] || DropTo(from[1..], ClosePattern(tag)) == [] then None
    else Some(Trim(Print(TakeTo(from[1..], ClosePattern(tag)))))
  }

  lemma TextOfPrint(ts: seq<Token>, tag: string)
    requires AllPlain(ts) && PlainName(tag)
    ensures TagText(Print(ts), tag) == TextWithin(ts, tag)
  {
    hide Find, FindFrom, Print, Show, StartsTag, Plain, PlainName, TagPattern, Trim, DropTo, TakeTo;
    ClosingPattern(tag);
    FindTag(ts, tag);
    TakeAndDrop(ts, tag);
    var from := DropTo(ts, tag);
    if from != [] {
      FoundTag(ts, tag);
      var open, rest := from[0], from[1..];
      assert from == [open] + rest;
      StartedTag(open, tag);
      PrintCons(open, rest);
      PlainIsBracketFree(open);
      TagEnds(open, Print(rest));
      ShowIsNotEmpty(open);
      SplitAfter(Show(open), Print(rest));
      FindTag(rest, ClosePattern(tag));
      TakeAndDrop(rest, ClosePattern(tag));
      if DropTo(rest, ClosePattern(tag)) != [] {
        FoundTag(rest, ClosePattern(tag));
      }
    }
  }

  lemma StartedTag(t: Token, q: string)
    requires StartsTag(t, q)
    ensures !t.Chars?
  {
  }

  lemma SplitAfter(a: string, b: string)
    ensures (a + b)[|a|..] == b
  {
  }

  /** Some tag of the tokens has a name that starts like this. */
  predicate HasTag(ts: seq<Token>, q: string) {
    exists i :: 0 <= i < |ts| && StartsTag(ts[i], q)
  }

  lemma {:induction false} DropsToTag(ts: seq<Token>, q: string)
    ensures DropTo(ts, q) != [] <==> HasTag(ts, q)
  {
    if ts != [] && !StartsTag(ts[0], q) {
      hide StartsTag;
      DropsToTag(ts[1..], q);
      assert forall i :: 0 < i < |ts| ==> ts[i] == ts[1..][i - 1];
      assert forall i :: 0 <= i < |ts[1..]| ==> ts[1..][i] == ts[i + 1];
    } else if ts != [] {
      assert StartsTag(ts[0], q);
    }
  }

  lemma MarkOfPrint(ts: seq<Token>, q: string)
    requires AllPlain(ts) && TagPattern(q)
    ensures Contains(Print(ts), "<" + q) <==> HasTag(ts, q)
  {
    hide Find, Print, StartsTag, Plain, TagPattern;
    FindTag(ts, q);
    DropsToTag(ts, q);
  }

  // ---------------------------------------------------------------- the reader's answer, on tokens

  function AttributeOr(block: seq<Token>, element: string, key: string): string {
    var read := Read(block, element, key);
    if read.Some? then read.value else ""
  }

  const SOURCE_ATTRIBUTES: seq<string> :=
    ["file", "network", "bridge", "dev", "address", "path", "name", "type", "mode"]

  /** Each of these attributes that the first source tag with attributes gives, after its name. */
  function Given(block: seq<Token>, keys: seq<string>): seq<string> {
    if keys == [] then []
    else
      var read := Read(block, "source", keys[0]);
      var others := Given(block, keys[1..]);
      if read.Some? then [keys[0] + "=" + read.value] + others else others
  }

  /** All of them in one text, each but the first after a semicolon. */
  function Listed(given: seq<string>): string {
    if given == [] then "" else given[0] + Following(given[1..])
  }

  function Following(given: seq<string>): string {
    if given == [] then "" else ";" + given[0] + Following(given[1..])
  }

  function SourceOf(block: seq<Token>): string {
    Listed(Given(block, SOURCE_ATTRIBUTES))
  }

  /** The disk of a block of tokens; it is read-only if a tag named like the mark is anywhere in it. */
  function DiskIn(block: seq<Token>): PersistentDisk {
    var file := Read(block, "source", "file");
    PersistentDisk(
      AttributeOr(block, "disk", "device"), AttributeOr(block, "disk", "type"),
      AttributeOr(block, "driver", "name"), AttributeOr(block, "driver", "type"),
      if file.Some? then file.value else SourceOf(block),
      AttributeOr(block, "target", "dev"), AttributeOr(block, "target", "bus"), HasTag(block, "readonly"))
  }

  function InterfaceIn(block: seq<Token>): PersistentInterface {
    PersistentInterface(
      AttributeOr(block, "interface", "type"), AttributeOr(block, "model", "type"),
      AttributeOr(block, "mac", "address"), SourceOf(block), Read(block, "backend", "type"))
  }

  function GraphicsIn(block: seq<Token>): string {
    "type=" + AttributeOr(block, "graphics", "type") + ";" + SourceOf(block)
  }

  /** The blocks that mention the guest agent's channel name. */
  function AgentBlocks(blocks: seq<seq<Token>>): seq<seq<Token>> {
    if blocks == [] then []
    else
      var others := AgentBlocks(blocks[1..]);
      if Contains(Print(blocks[0]), "org.qemu.guest_agent.0") then [blocks[0]] + others else others
  }

  // ---------------------------------------------------------------- names

  lemma LowerCase(s: string)
    requires s != "" && forall i :: 0 <= i < |s| ==> 'a' <= s[i] <= 'z'
    ensures PlainName(s)
  {
  }

  lemma OsNames()
    ensures PlainName("os") && PlainName("type") && PlainName("machine") && PlainName("vcpu")
    ensures PlainName("memory") && PlainName("loader")
  {
    hide PlainName;
    LowerCase("os"); LowerCase("type"); LowerCase("machine"); LowerCase("vcpu");
    LowerCase("memory"); LowerCase("loader");
  }

  lemma BlockNames()
    ensures PlainName("devices") && PlainName("hostdev") && PlainName("filesystem") && PlainName("disk")
    ensures PlainName("interface") && PlainName("graphics") && PlainName("channel")
  {
    hide PlainName;
    LowerCase("devices"); LowerCase("hostdev"); LowerCase("filesystem"); LowerCase("disk");
    LowerCase("interface"); LowerCase("graphics"); LowerCase("channel");
  }

  lemma DiskNames()
    ensures PlainName("disk") && PlainName("device") && PlainName("type") && PlainName("driver")
    ensures PlainName("name") && PlainName("source") && PlainName("file") && PlainName("target")
    ensures PlainName("dev") && PlainName("bus")
  {
    hide PlainName;
    LowerCase("disk"); LowerCase("device"); LowerCase("type"); LowerCase("driver");
    LowerCase("name"); LowerCase("source"); LowerCase("file"); LowerCase("target");
    LowerCase("dev"); LowerCase("bus");
  }

  lemma InterfaceNames()
    ensures PlainName("interface") && PlainName("type") && PlainName("model") && PlainName("mac")
    ensures PlainName("address") && PlainName("backend")
  {
    hide PlainName;
    LowerCase("interface"); LowerCase("type"); LowerCase("model"); LowerCase("mac");
    LowerCase("address"); LowerCase("backend");
  }

  lemma SourceNames()
    ensures forall w :: w in SOURCE_ATTRIBUTES ==> PlainName(w)
  {
    hide PlainName;
    LowerCase("file"); LowerCase("network"); LowerCase("bridge"); LowerCase("dev"); LowerCase("address");
    LowerCase("path"); LowerCase("name"); LowerCase("type"); LowerCase("mode");
  }

  // ---------------------------------------------------------------- blocks

  lemma {:induction false} BlocksArePlain(ts: seq<Token>, start: string, end: string, close: Token)
    requires AllPlain(ts) && forall t :: Plain(t) && StartsTag(t, end) ==> t == close
    ensures forall block :: block in TokenBlocks(ts, start, end) ==>
              AllPlain(block) && block != [] && StartsTag(block[0], start)
    decreases |ts|
  {
    hide StartsTag, Plain;
    TakeAndDrop(ts, start);
    var from := DropTo(ts, start);
    TakeAndDrop(from, end);
    var rest := DropTo(from, end);
    if from != [] && rest != [] {
      BlocksArePlain(rest[1..], start, end, close);
      var block := TakeTo(from, end) + [rest[0]];
      if TakeTo(from, end) == [] {
        assert from == rest;
      } else {
        assert (TakeTo(from, end) + rest)[0] == TakeTo(from, end)[0];
      }
      assert AllPlain(block);
    }
  }

  lemma PlainBlocks(ts: seq<Token>, tag: string)
    requires AllPlain(ts) && PlainName(tag)
    ensures forall block :: block in Blocks(ts, tag) ==> AllPlain(block) && block != [] && StartsTag(block[0], tag)
  {
    hide StartsTag, Plain;
    ClosingPattern(tag);
    BlocksArePlain(ts, tag, ClosePattern(tag), Close(tag));
  }

  lemma {:induction false} SourceOfPrint(block: seq<Token>, keys: seq<string>)
    requires AllPlain(block) && forall w :: w in keys ==> PlainName(w)
    ensures SourceFields(Print(block), keys) == Given(block, keys)
  {
    if keys != [] {
      assert PlainName("source") by { LowerCase("source"); }
      hide Print, XmlAttribute, PlainName, Plain, Read;
      ReadPrinted(block, "source", keys[0]);
      SourceOfPrint(block, keys[1..]);
    }
  }

  lemma {:induction false} JoinedLists(fields: seq<string>)
    ensures Join(fields, ";") == Listed(fields)
  {
    if |fields| > 1 {
      JoinedLists(fields[1..]);
      assert fields[0] + ";" + Listed(fields[1..]) == fields[0] + (";" + fields[1] + Following(fields[1..][1..]));
    } else if |fields| == 1 {
      assert Following(fields[1..]) == "";
      assert fields[0] + "" == fields[0];
    }
  }

  lemma SourceIdentityOfPrint(block: seq<Token>)
    requires AllPlain(block)
    ensures SourceIdentity(Print(block)) == SourceOf(block)
  {
    SourceNames();
    hide Print, Plain, PlainName, SourceFields, Given;
    SourceOfPrint(block, SOURCE_ATTRIBUTES);
    JoinedLists(Given(block, SOURCE_ATTRIBUTES));
  }

  lemma DiskOfPrint(block: seq<Token>)
    requires AllPlain(block)
    ensures DiskOf(Print(block)) == DiskIn(block)
  {
    DiskNames();
    hide Print, XmlAttribute, Plain, PlainName, Read, SourceIdentity, SourceOf, Contains, HasTag;
    ReadPrinted(block, "disk", "device");
    ReadPrinted(block, "disk", "type");
    ReadPrinted(block, "driver", "name");
    ReadPrinted(block, "driver", "type");
    ReadPrinted(block, "source", "file");
    ReadPrinted(block, "target", "dev");
    ReadPrinted(block, "target", "bus");
    SourceIdentityOfPrint(block);
    ReadonlyPattern();
    MarkOfPrint(block, "readonly");
  }

  lemma ReadonlyPattern()
    ensures TagPattern("readonly") && "<" + "readonly" == "<readonly"
    ensures "file" in SOURCE_ATTRIBUTES
  {
    assert SOURCE_ATTRIBUTES[0] == "file";
  }

  lemma InterfaceOfPrint(block: seq<Token>)
    requires AllPlain(block)
    ensures InterfaceOf(Print(block)) == InterfaceIn(block)
  {
    InterfaceNames();
    hide Print, XmlAttribute, Plain, PlainName, Read, SourceIdentity, SourceOf;
    ReadPrinted(block, "interface", "type");
    ReadPrinted(block, "model", "type");
    ReadPrinted(block, "mac", "address");
    ReadPrinted(block, "backend", "type");
    SourceIdentityOfPrint(block);
  }

  lemma GraphicsOfPrint(block: seq<Token>)
    requires AllPlain(block)
    ensures GraphicsOf(Print(block)) == GraphicsIn(block)
  {
    BlockNames();
    OsNames();
    hide Print, XmlAttribute, Plain, PlainName, Read, SourceIdentity, SourceOf;
    ReadPrinted(block, "graphics", "type");
    SourceIdentityOfPrint(block);
  }

  lemma {:induction false} EachOfPrint(blocks: seq<seq<Token>>)
    requires forall block :: block in blocks ==> AllPlain(block)
    ensures |PrintAll(blocks)| == |blocks|
    ensures DisksOf(PrintAll(blocks)) == seq(|blocks|, i requires 0 <= i < |blocks| => DiskIn(blocks[i]))
    ensures InterfacesOf(PrintAll(blocks)) == seq(|blocks|, i requires 0 <= i < |blocks| => InterfaceIn(blocks[i]))
    ensures AllGraphics(PrintAll(blocks)) == seq(|blocks|, i requires 0 <= i < |blocks| => GraphicsIn(blocks[i]))
    ensures GuestAgentChannels(PrintAll(blocks)) == |AgentBlocks(blocks)|
  {
    hide Print, DiskOf, InterfaceOf, GraphicsOf, DiskIn, InterfaceIn, GraphicsIn, Contains, AllPlain;
    if blocks != [] {
      var block, rest := blocks[0], blocks[1..];
      EachOfPrint(rest);
      PrintAllCons(block, rest);
      assert blocks == [block] + rest && PrintAll(blocks)[1..] == PrintAll(rest);
      DiskOfPrint(block);
      InterfaceOfPrint(block);
      GraphicsOfPrint(block);
    }
  }

  /** The names of the elements directly below a block's own tag. */
  lemma KindsOfBlock(block: seq<Token>)
    requires AllPlain(block) && block != [] && !block[0].Chars?
    ensures DirectChildKinds(Print(block)) == Sorted(TokenKinds(block[1..], 0))
  {
    hide Plain, Show, Find, ChildKinds, TokenKinds, Sorted;
    var open, content := block[0], block[1..];
    assert block == [open] + content;
    AllPlainIsBracketFree(block);
    PrintCons(open, content);
    TagEnds(open, Print(content));
    ShowIsNotEmpty(open);
    SplitAfter(Show(open), Print(content));
    KindsOfPrint(content, 0);
  }

  lemma NothingKinds()
    ensures DirectChildKinds("") == [] && XmlBlocks("", "hostdev") == [] && XmlBlocks("", "filesystem") == []
  {
    FindNothing("", ">");
    FindNothing("", StartMarker("hostdev"));
    FindNothing("", StartMarker("filesystem"));
  }

  // ---------------------------------------------------------------- the whole topology

  /** The devices element, or nothing. */
  function Devices(ts: seq<Token>): seq<Token> {
    var blocks := Blocks(ts, "devices");
    if blocks == [] then [] else blocks[0]
  }

  /** A number in the text of an element. */
  function NumberIn(ts: seq<Token>, tag: string, bound: nat): Option<nat> {
    var text := TextWithin(ts, tag);
    if text.Some? then ParseUnsigned(text.value, bound) else None
  }

  /** Everything the reader reports of a document, from its tokens. */
  function Reported(ts: seq<Token>, machine: string, vcpus: nat, memory: nat, autostart: bool): PersistentTopology {
    var os := Blocks(ts, "os");
    var disks, interfaces, graphics := Blocks(ts, "disk"), Blocks(ts, "interface"), Blocks(ts, "graphics");
    var devices := Devices(ts);
    PersistentTopology(
      machine, if os == [] then None else TextWithin(os[0], "loader"), vcpus, memory,
      seq(|disks|, i requires 0 <= i < |disks| => DiskIn(disks[i])),
      seq(|interfaces|, i requires 0 <= i < |interfaces| => InterfaceIn(interfaces[i])),
      seq(|graphics|, i requires 0 <= i < |graphics| => GraphicsIn(graphics[i])),
      |AgentBlocks(Blocks(ts, "channel"))|,
      |Blocks(devices, "hostdev")|, |Blocks(devices, "filesystem")|,
      if devices == [] then [] else Sorted(TokenKinds(devices[1..], 0)), autostart)
  }

  lemma DevicesOfPrint(ts: seq<Token>)
    requires AllPlain(ts)
    ensures var blocks := XmlBlocks(Print(ts), "devices");
            var devices := if blocks == [] then "" else blocks[0];
            && |XmlBlocks(devices, "hostdev")| == |Blocks(Devices(ts), "hostdev")|
            && |XmlBlocks(devices, "filesystem")| == |Blocks(Devices(ts), "filesystem")|
            && DirectChildKinds(devices) == if Devices(ts) == [] then [] else Sorted(TokenKinds(Devices(ts)[1..], 0))
  {
    BlockNames();
    hide Print, Plain, PlainName, XmlBlocks, Blocks, DirectChildKinds, TokenKinds, Sorted;
    BlocksOfPrint(ts, "devices");
    PlainBlocks(ts, "devices");
    NothingKinds();
    NoBlocksOfNothing("hostdev");
    NoBlocksOfNothing("filesystem");
    if Blocks(ts, "devices") != [] {
      var devices := Blocks(ts, "devices")[0];
      assert devices in Blocks(ts, "devices");
      assert PrintAll(Blocks(ts, "devices"))[0] == Print(devices);
      StartedTag(devices[0], "devices");
      BlocksOfPrint(devices, "hostdev");
      BlocksOfPrint(devices, "filesystem");
      PrintsEach(Blocks(devices, "hostdev"));
      PrintsEach(Blocks(devices, "filesystem"));
      KindsOfBlock(devices);
    }
  }

  lemma NoBlocksOfNothing(tag: string)
    ensures Blocks([], tag) == []
  {
  }

  lemma {:induction false} PrintsEach(blocks: seq<seq<Token>>)
    ensures |PrintAll(blocks)| == |blocks|
  {
    if blocks != [] {
      hide Print;
      PrintsEach(blocks[1..]);
    }
  }

  lemma ElementsOfPrint(ts: seq<Token>)
    requires AllPlain(ts)
    ensures var disks, interfaces, graphics := Blocks(ts, "disk"), Blocks(ts, "interface"), Blocks(ts, "graphics");
            var xml := Print(ts);
            && DisksOf(XmlBlocks(xml, "disk")) == seq(|disks|, i requires 0 <= i < |disks| => DiskIn(disks[i]))
            && InterfacesOf(XmlBlocks(xml, "interface"))
               == seq(|interfaces|, i requires 0 <= i < |interfaces| => InterfaceIn(interfaces[i]))
            && AllGraphics(XmlBlocks(xml, "graphics"))
               == seq(|graphics|, i requires 0 <= i < |graphics| => GraphicsIn(graphics[i]))
            && GuestAgentChannels(XmlBlocks(xml, "channel")) == |AgentBlocks(Blocks(ts, "channel"))|
  {
    BlockNames();
    hide Print, Plain, PlainName, XmlBlocks, Blocks, DiskIn, InterfaceIn, GraphicsIn, AgentBlocks, DisksOf,
         InterfacesOf, AllGraphics, GuestAgentChannels, PrintAll, AllPlain;
    BlocksOfPrint(ts, "disk");
    PlainBlocks(ts, "disk");
    EachOfPrint(Blocks(ts, "disk"));
    BlocksOfPrint(ts, "interface");
    PlainBlocks(ts, "interface");
    EachOfPrint(Blocks(ts, "interface"));
    BlocksOfPrint(ts, "graphics");
    PlainBlocks(ts, "graphics");
    EachOfPrint(Blocks(ts, "graphics"));
    BlocksOfPrint(ts, "channel");
    PlainBlocks(ts, "channel");
    EachOfPrint(Blocks(ts, "channel"));
  }

  lemma OsOfPrint(ts: seq<Token>)
    requires AllPlain(ts)
    ensures var read, blocks := XmlBlocks(Print(ts), "os"), Blocks(ts, "os");
            && (read == [] <==> blocks == [])
            && (blocks != [] ==>
                  && XmlAttribute(read[0], "type", "machine") == Read(blocks[0], "type", "machine")
                  && TagText(read[0], "loader") == TextWithin(blocks[0], "loader"))
    ensures TagText(Print(ts), "vcpu") == TextWithin(ts, "vcpu")
    ensures TagText(Print(ts), "memory") == TextWithin(ts, "memory")
  {
    OsNames();
    hide Print, Plain, PlainName, XmlBlocks, Blocks, XmlAttribute, Read, TagText, TextWithin, AllPlain;
    BlocksOfPrint(ts, "os");
    PlainBlocks(ts, "os");
    TextOfPrint(ts, "vcpu");
    TextOfPrint(ts, "memory");
    var blocks := Blocks(ts, "os");
    if blocks != [] {
      FirstOfBlocks(blocks);
      ReadPrinted(blocks[0], "type", "machine");
      TextOfPrint(blocks[0], "loader");
    }
  }

  lemma FirstOfBlocks(blocks: seq<seq<Token>>)
    requires blocks != []
    ensures PrintAll(blocks) != [] && PrintAll(blocks)[0] == Print(blocks[0]) && blocks[0] in blocks
  {
    hide Print;
  }

  /**
   The reader on any printed document: the first thing it misses decides its refusal, and else it
   reports exactly what the tokens say, host devices, file systems, firmware, marks and addresses
   included, whether or not Forge would have rendered them.
   */
  lemma TopologyOfTokens(ts: seq<Token>, autostart: bool)
    requires AllPlain(ts)
    ensures var read, os := ReadTopology(Print(ts), autostart), Blocks(ts, "os");
            var machine := if os == [] then None else Read(os[0], "type", "machine");
            var vcpus, memory := NumberIn(ts, "vcpu", 0x1_0000_0000), NumberIn(ts, "memory", 0x1_0000_0000_0000_0000);
            && (read == Failure(NoOs) <==> os == [])
            && (read == Failure(NoMachine) <==> os != [] && machine == None)
            && (read == Failure(NoVcpu) <==> machine.Some? && TextWithin(ts, "vcpu") == None)
            && (read == Failure(InvalidVcpu) <==> machine.Some? && TextWithin(ts, "vcpu").Some? && vcpus == None)
            && (read == Failure(NoMemory) <==> machine.Some? && vcpus.Some? && TextWithin(ts, "memory") == None)
            && (read == Failure(InvalidMemory) <==>
                  machine.Some? && vcpus.Some? && TextWithin(ts, "memory").Some? && memory == None)
            && (machine.Some? && vcpus.Some? && memory.Some? ==>
                  read == Success(Reported(ts, machine.value, vcpus.value, memory.value, autostart)))
  {
    hide Print, Plain, XmlBlocks, Blocks, XmlAttribute, Read, TagText, TextWithin, DisksOf, InterfacesOf, AllGraphics,
         GuestAgentChannels, DirectChildKinds, ParseUnsigned, AllPlain, DiskIn, InterfaceIn, GraphicsIn, AgentBlocks,
         TokenKinds, Sorted;
    OsOfPrint(ts);
    DevicesOfPrint(ts);
    ElementsOfPrint(ts);
  }

  /** A topology that is read is the one that the tokens report. */
  lemma ReadIsReported(ts: seq<Token>, autostart: bool)
    requires AllPlain(ts) && ReadTopology(Print(ts), autostart).Success?
    ensures var read := ReadTopology(Print(ts), autostart).value;
            && read == Reported(ts, read.machine, read.vcpus, read.memoryKib, autostart)
            && Blocks(ts, "os") != [] && Read(Blocks(ts, "os")[0], "type", "machine") == Some(read.machine)
            && NumberIn(ts, "vcpu", 0x1_0000_0000) == Some(read.vcpus)
            && NumberIn(ts, "memory", 0x1_0000_0000_0000_0000) == Some(read.memoryKib)
  {
    hide ReadTopology, Print, Blocks, Read, NumberIn, TextWithin, DiskIn, InterfaceIn, GraphicsIn, AgentBlocks, Devices,
         TokenKinds, Sorted;
    TopologyOfTokens(ts, autostart);
  }
}
