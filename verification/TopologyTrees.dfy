/** What the topology reader counts in a printed element tree, such as libvirt returns it. */
module TopologyTrees {
  import opened Results
  import opened Sequences
  import opened Text
  import opened Markup
  import opened Scanners
  import opened ScannerTheorems
  import opened Topology
  import opened DocumentShape
  import opened TopologyTokens

  // ---------------------------------------------------------------- elements of one name

  /** No element of this name with content of its own is anywhere in the trees. */
  predicate Absent(nodes: seq<Node>, tag: string)
    decreases nodes
  {
    nodes == []
    || (Absent(nodes[1..], tag)
        && (nodes[0].Element? ==> nodes[0].name != tag && Absent(nodes[0].children, tag)))
  }

  /**
   What the block scanner needs of a tree: a name that starts with the tag is that very name, of an
   element that is closed by a tag of its own and holds no other of its name.
   */
  predicate Clear(nodes: seq<Node>, tag: string)
    decreases nodes
  {
    nodes == []
    || (Clear(nodes[1..], tag)
        && match nodes[0]
           case Content(_) => true
           case Void(name, _) => !StartsWith(name, tag)
           case Element(name, _, children) =>
             if name == tag then Absent(children, tag) else !StartsWith(name, tag) && Clear(children, tag))
  }

  /** All elements of that name, at any depth, in the order of the document. */
  function Elements(nodes: seq<Node>, tag: string): seq<Node>
    decreases nodes
  {
    if nodes == [] then []
    else
      (match nodes[0]
       case Element(name, _, children) => if name == tag then [nodes[0]] else Elements(children, tag)
       case _ => [])
      + Elements(nodes[1..], tag)
  }

  function Each(nodes: seq<Node>): seq<seq<Token>> {
    seq(|nodes|, i requires 0 <= i < |nodes| => Tokens(nodes[i]))
  }

  lemma {:induction false} AbsentNeverCloses(nodes: seq<Node>, tag: string)
    requires Absent(nodes, tag)
    ensures Close(tag) !in TokensOf(nodes)
    decreases nodes
  {
    if nodes != [] {
      AbsentNeverCloses(nodes[1..], tag);
      if nodes[0].Element? {
        AbsentNeverCloses(nodes[0].children, tag);
      }
    }
  }

  lemma EachOfTwo(a: seq<Node>, b: seq<Node>, c: seq<seq<Token>>)
    ensures Each(a + b) + c == Each(a) + (Each(b) + c)
    ensures Each([]) + c == c
  {
    hide Tokens;
  }

  lemma EachOfOne(n: Node)
    ensures Each([n]) == [Tokens(n)]
  {
    hide Tokens;
  }

  /** Past a single tag that is not looked for. */
  lemma BlocksPastTag(t: Token, rest: seq<Token>, tag: string)
    requires Plain(t) && PlainName(tag) && ((t.Open? || t.Empty?) ==> !StartsWith(t.name, tag))
    ensures Blocks([t] + rest, tag) == Blocks(rest, tag)
  {
    hide Blocks, StartsTag, Plain, PlainName, StartsWith;
    StartsTagByName(t, tag);
    assert NoTag([t], tag);
    BlocksPast([t], rest, tag);
  }

  lemma {:induction false} BlocksOfNode(n: Node, rest: seq<Token>, tag: string)
    requires AllPlain(Tokens(n)) && PlainName(tag) && Clear([n], tag)
    ensures Blocks(Tokens(n) + rest, tag) == Each(Elements([n], tag)) + Blocks(rest, tag)
    decreases n, 1
  {
    hide Blocks, StartsTag, PlainName, StartsWith, Each, Plain;
    assert [n][1..] == [];
    EachOfTwo([], [], Blocks(rest, tag));
    match n
    case Content(text) =>
      assert Plain(Tokens(n)[0]);
      BlocksPastTag(Chars(text), rest, tag);
    case Void(name, attributes) =>
      assert Plain(Tokens(n)[0]);
      BlocksPastTag(Empty(name, attributes), rest, tag);
    case Element(name, attributes, children) =>
      var open, close, content := Open(name, attributes), Close(name), TokensOf(children);
      PartsArePlain(open, content, close);
      if name == tag {
        AbsentNeverCloses(children, tag);
        NameStartsTag(open, tag);
        BlocksOfElement(open, content, rest, tag);
        EachOfOne(n);
        assert Elements([n], tag) == [n];
      } else {
        RegroupElement([open], content, [close], rest);
        BlocksPastTag(open, content + ([close] + rest), tag);
        BlocksOfNodes(children, [close] + rest, tag);
        BlocksPastTag(close, rest, tag);
        assert Elements([n], tag) == Elements(children, tag) by {
          assert Elements([], tag) == [];
        }
      }
  }

  lemma PartsArePlain(open: Token, content: seq<Token>, close: Token)
    requires AllPlain([open] + content + [close])
    ensures Plain(open) && AllPlain(content) && Plain(close)
  {
    hide Plain;
    var all := [open] + content + [close];
    assert all[0] == open && all[|content| + 1] == close;
    assert forall i :: 0 <= i < |content| ==> content[i] == all[i + 1];
  }

  /** Trees without confusion have exactly their elements of that name as blocks, in order. */
  lemma {:induction false} BlocksOfNodes(nodes: seq<Node>, rest: seq<Token>, tag: string)
    requires AllPlain(TokensOf(nodes)) && PlainName(tag) && Clear(nodes, tag)
    ensures Blocks(TokensOf(nodes) + rest, tag) == Each(Elements(nodes, tag)) + Blocks(rest, tag)
    decreases nodes, 0
  {
    hide Blocks, StartsTag, PlainName, StartsWith, Each, Plain;
    if nodes == [] {
      assert TokensOf(nodes) + rest == rest;
      EachOfTwo([], [], Blocks(rest, tag));
    } else {
      var head, tail := nodes[0], nodes[1..];
      SplitPlain(Tokens(head), TokensOf(tail));
      Associates(Tokens(head), TokensOf(tail), rest);
      HeadIsClear(nodes, tag);
      BlocksOfNode(head, TokensOf(tail) + rest, tag);
      BlocksOfNodes(tail, rest, tag);
      EachOfTwo(Elements([head], tag), Elements(tail, tag), Blocks(rest, tag));
    }
  }

  lemma HeadIsClear(nodes: seq<Node>, tag: string)
    requires nodes != [] && Clear(nodes, tag)
    ensures Clear([nodes[0]], tag)
    ensures Elements(nodes, tag) == Elements([nodes[0]], tag) + Elements(nodes[1..], tag)
  {
    hide StartsWith;
    assert [nodes[0]][1..] == [];
    assert Clear([], tag) && Elements([], tag) == [];
  }

  lemma SplitPlain(a: seq<Token>, b: seq<Token>)
    requires AllPlain(a + b)
    ensures AllPlain(a) && AllPlain(b)
  {
    hide Plain;
    assert forall i :: 0 <= i < |a| ==> a[i] == (a + b)[i];
    assert forall i :: 0 <= i < |b| ==> b[i] == (a + b)[|a| + i];
  }

  /** The blocks of a whole printed tree. */
  lemma BlocksOfTree(root: Node, tag: string)
    requires AllPlain(Tokens(root)) && PlainName(tag) && Clear([root], tag)
    ensures Blocks(Tokens(root), tag) == Each(Elements([root], tag))
  {
    hide Blocks, PlainName, Clear, Elements, Each, AllPlain, Tokens;
    BlocksOfNode(root, [], tag);
    NoBlocksOfNothing(tag);
    assert Tokens(root) + [] == Tokens(root);
    assert Each(Elements([root], tag)) + [] == Each(Elements([root], tag));
  }

  // ---------------------------------------------------------------- what is counted

  /** How many of the elements mention the guest agent's channel. */
  function Agents(channels: seq<Node>): nat {
    if channels == [] then 0
    else
      (if Contains(Print(Tokens(channels[0])), "org.qemu.guest_agent.0") then 1 else 0) + Agents(channels[1..])
  }

  lemma {:induction false} AgentsOfEach(channels: seq<Node>)
    ensures |AgentBlocks(Each(channels))| == Agents(channels)
  {
    hide Tokens, Contains, Print;
    if channels != [] {
      AgentsOfEach(channels[1..]);
      assert Each(channels)[1..] == Each(channels[1..]);
    }
  }

  lemma {:induction false} ElementsAreNamed(nodes: seq<Node>, tag: string)
    ensures forall n :: n in Elements(nodes, tag) ==> n.Element? && n.name == tag
    decreases nodes
  {
    if nodes != [] {
      ElementsAreNamed(nodes[1..], tag);
      if nodes[0].Element? {
        ElementsAreNamed(nodes[0].children, tag);
      }
    }
  }

  /** Nothing in the document is mistaken for one of the elements that the reader looks for. */
  predicate Readable(root: Node) {
    var devices := Elements([root], "devices");
    && AllPlain(Tokens(root))
    && Clear([root], "os") && Clear([root], "devices") && Clear([root], "disk") && Clear([root], "interface")
    && Clear([root], "channel")
    && (devices != [] ==> Clear([devices[0]], "hostdev") && Clear([devices[0]], "filesystem"))
  }

  /** What a devices element is reported to hold. */
  lemma DevicesOfTree(devices: Node)
    requires devices.Element? && AllPlain(Tokens(devices))
    requires Clear([devices], "hostdev") && Clear([devices], "filesystem")
    ensures |Blocks(Tokens(devices), "hostdev")| == |Elements([devices], "hostdev")|
    ensures |Blocks(Tokens(devices), "filesystem")| == |Elements([devices], "filesystem")|
    ensures Tokens(devices) != [] && TokenKinds(Tokens(devices)[1..], 0) == NamesOf(devices.children)
  {
    BlockNames();
    hide Blocks, PlainName, Clear, Elements, AllPlain, TokenKinds, TokensOf, NamesOf;
    BlocksOfTree(devices, "hostdev");
    BlocksOfTree(devices, "filesystem");
    var close := [Close(devices.name)];
    assert Tokens(devices) == [Open(devices.name, devices.attributes)] + (TokensOf(devices.children) + close);
    KindsOfNodes(devices.children, close, 0);
    KindsCons(Close(devices.name), [], 0);
    assert close + [] == close;
    NoKindsOfNothing();
    assert NamesOf(devices.children) + [] == NamesOf(devices.children);
  }

  /** The blocks of each kind in a whole document. */
  lemma ElementsOfTree(root: Node)
    requires Readable(root)
    ensures Blocks(Tokens(root), "os") == Each(Elements([root], "os"))
    ensures Blocks(Tokens(root), "devices") == Each(Elements([root], "devices"))
    ensures Blocks(Tokens(root), "disk") == Each(Elements([root], "disk"))
    ensures Blocks(Tokens(root), "interface") == Each(Elements([root], "interface"))
    ensures Blocks(Tokens(root), "channel") == Each(Elements([root], "channel"))
  {
    BlockNames();
    OsNames();
    hide Blocks, PlainName, Clear, Elements, AllPlain, Tokens, Each;
    BlocksOfTree(root, "os");
    BlocksOfTree(root, "devices");
    BlocksOfTree(root, "disk");
    BlocksOfTree(root, "interface");
    BlocksOfTree(root, "channel");
  }

  /**
   The reader on any element tree in which nothing is mistaken: one disk and one interface for each such
   element, wherever it stands, the channels of the guest agent, the host devices and file systems of the
   first devices element, and the sorted names of its own children.
   */
  lemma TopologyOfTree(root: Node, autostart: bool)
    requires Readable(root) && ReadTopology(Print(Tokens(root)), autostart).Success?
    ensures var read, nodes := ReadTopology(Print(Tokens(root)), autostart).value, [root];
            var disks, interfaces := Elements(nodes, "disk"), Elements(nodes, "interface");
            var os, devices := Elements(nodes, "os"), Elements(nodes, "devices");
            && os != [] && Read(Tokens(os[0]), "type", "machine") == Some(read.machine)
            && read.firmwareLoader == TextWithin(Tokens(os[0]), "loader")
            && |read.disks| == |disks| && (forall i :: 0 <= i < |disks| ==> read.disks[i] == DiskIn(Tokens(disks[i])))
            && |read.interfaces| == |interfaces|
            && (forall i :: 0 <= i < |interfaces| ==> read.interfaces[i] == InterfaceIn(Tokens(interfaces[i])))
            && read.qgaChannels == Agents(Elements(nodes, "channel"))
            && read.hostdevs == (if devices == [] then 0 else |Elements([devices[0]], "hostdev")|)
            && read.filesystems == (if devices == [] then 0 else |Elements([devices[0]], "filesystem")|)
            && (forall n :: n in devices ==> n.Element?)
            && read.deviceKinds == (if devices == [] then [] else Sorted(NamesOf(devices[0].children)))
            && read.autostart == autostart
  {
    hide Blocks, PlainName, Clear, Elements, AllPlain, Tokens, DiskIn, InterfaceIn, GraphicsIn, AgentBlocks, Agents,
         TextWithin, ReadTopology, Print, TokenKinds, NamesOf, Sorted, Read, NumberIn;
    ReadIsReported(Tokens(root), autostart);
    ElementsOfTree(root);
    AgentsOfEach(Elements([root], "channel"));
    DevicesReported(root);
  }

  lemma DevicesReported(root: Node)
    requires Readable(root) && Blocks(Tokens(root), "devices") == Each(Elements([root], "devices"))
    ensures var found, devices := Elements([root], "devices"), Devices(Tokens(root));
            && (found == [] <==> devices == [])
            && (found == [] ==> Blocks([], "hostdev") == Blocks([], "filesystem") == [])
            && (forall n :: n in found ==> n.Element?)
            && (found != [] ==>
                  && |Blocks(devices, "hostdev")| == |Elements([found[0]], "hostdev")|
                  && |Blocks(devices, "filesystem")| == |Elements([found[0]], "filesystem")|
                  && TokenKinds(devices[1..], 0) == NamesOf(found[0].children))
  {
    hide Clear, AllPlain, Tokens, TokenKinds, NamesOf, Blocks;
    ElementsAreNamed([root], "devices");
    NoBlocksOfNothing("hostdev");
    NoBlocksOfNothing("filesystem");
    BlockNames();
    hide PlainName, Elements;
    PlainBlocks(Tokens(root), "devices");
    var found := Elements([root], "devices");
    if found != [] {
      assert found[0] in found && Each(found)[0] == Tokens(found[0]) && Each(found)[0] in Each(found);
      DevicesOfTree(found[0]);
    }
  }

  lemma {:induction false} NoElementsIff(nodes: seq<Node>, tag: string)
    ensures Elements(nodes, tag) == [] <==> Absent(nodes, tag)
    decreases nodes
  {
    if nodes != [] {
      NoElementsIff(nodes[1..], tag);
      if nodes[0].Element? {
        NoElementsIff(nodes[0].children, tag);
      }
    }
  }

  /** A passed-through device or directory, at whatever depth of the devices element, never goes unnoticed. */
  lemma PassthroughIsNoticed(root: Node, autostart: bool)
    requires Readable(root) && ReadTopology(Print(Tokens(root)), autostart).Success?
    requires Elements([root], "devices") != []
    ensures var read, devices := ReadTopology(Print(Tokens(root)), autostart).value, Elements([root], "devices")[0];
            && (read.hostdevs == 0 <==> Absent([devices], "hostdev"))
            && (read.filesystems == 0 <==> Absent([devices], "filesystem"))
  {
    hide Readable, ReadTopology, Print, Tokens, Elements, Absent;
    TopologyOfTree(root, autostart);
    var devices := Elements([root], "devices")[0];
    NoElementsIff([devices], "hostdev");
    NoElementsIff([devices], "filesystem");
  }
}
