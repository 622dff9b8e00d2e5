/** Which disk each kind of boot option leads to, told from the option as stored. */
module BootTargets {
  import opened Basics
  import opened LittleEndian
  import opened LoadOption
  import opened Search
  import opened BootDisk

  // ---- where an option leads ----

  /** A stored, active, non-legacy option with these nodes. */
  predicate Stored(m: Machine, num: nat, nodes: seq<Node>) {
    && num in m.boot && m.boot[num].Present? && |m.boot[num].raw| >= 4
    && Parse(m.boot[num].raw[4..]).Some?
    && var o := Parse(m.boot[num].raw[4..]).value;
       o.nodes == nodes && o.attributes % 2 == 1 && (nodes != [] ==> nodes[0].typ != 5)
  }

  /** Every option written with an odd attribute word and non-legacy nodes is stored in this sense. */
  lemma WrittenIsStored(m: Machine, num: nat, attributes: nat, description: seq<byte>, nodes: seq<Node>,
                        more: seq<byte>, optional: seq<byte>, header: seq<byte>)
    requires |header| == 4 && attributes < 0x1_0000_0000 && attributes % 2 == 1 && Description(description)
    requires forall n :: n in nodes ==> WellFormedNode(n)
    requires |EncodeNodes(nodes) + END_NODE + more| < 0x1_0000 && (nodes != [] ==> nodes[0].typ != 5)
    requires num in m.boot && m.boot[num] == Present(header + Encode(attributes, description, nodes, more, optional))
    ensures Stored(m, num, nodes)
  {
    ParseInvertsEncode(attributes, description, nodes, more, optional);
    assert m.boot[num].raw[4..] == Encode(attributes, description, nodes, more, optional);
  }

  /** A node that names a GPT partition by GUID. */
  predicate PartitionNode(n: Node, guid: seq<byte>) {
    n.typ == 4 && n.sub == 1 && |n.data| == 38 && n.data[36] == 2 && n.data[37] == 2 && n.data[20..36] == guid && |guid| == 16
  }

  lemma {:induction false} FirstGptBehind(before: seq<Node>, n: Node, after: seq<Node>)
    requires GptNode(n) && forall b :: b in before ==> !GptNode(b)
    ensures FirstGpt(before + [n] + after) == Some(n)
  {
    var nodes := before + [n] + after;
    if before == [] {
      assert nodes[0] == n;
    } else {
      assert nodes[0] == before[0] && nodes[1..] == before[1..] + [n] + after;
      FirstGptBehind(before[1..], n, after);
    }
  }

  /** The rows of an ESP with this GUID. */
  predicate EspWithGuid(r: Row, guid: seq<byte>)
    requires |guid| == 16
  {
    FirmwareEsp(r) && EqualFold(r.partUuid, FormatGuid(guid))
  }

  lemma {:induction false} GptTargetFinds(rows: seq<Row>, guid: seq<byte>)
    requires |guid| == 16
    ensures (forall r :: r in rows ==> !EspWithGuid(r, guid)) ==> GptTarget(rows, FormatGuid(guid)) == Nowhere
    ensures (exists r :: r in rows && EspWithGuid(r, guid)) ==>
              exists r :: r in rows && EspWithGuid(r, guid) && GptTarget(rows, FormatGuid(guid)) == Reaching(DevPath(r.parent))
  {
    if rows != [] {
      GptTargetFinds(rows[1..], guid);
      assert forall r :: r in rows <==> r == rows[0] || r in rows[1..];
    }
  }

  /** With a partition node the option leads where that node does. */
  lemma PartitionOptionTarget(m: Machine, num: nat, nodes: seq<Node>, n: Node)
    requires Stored(m, num, nodes) && FirstGpt(nodes) == Some(n) && GptNode(n)
    ensures OptionTarget(m, num) == GptTarget(m.rows, FormatGuid(n.data[20..36]))
  {
  }

  /** Without one it leads where its first telling node does. */
  lemma StorageOptionTarget(m: Machine, num: nat, nodes: seq<Node>)
    requires Stored(m, num, nodes) && FirstGpt(nodes).None?
    ensures OptionTarget(m, num) == StorageTarget(m, nodes)
  {
  }

  /** An option with a partition node leads to the disk of the ESP with that GUID, whatever its other nodes; to none if there is no such ESP. */
  lemma PartitionOptionReachesItsEsp(m: Machine, num: nat, before: seq<Node>, n: Node, after: seq<Node>, guid: seq<byte>)
    requires Stored(m, num, before + [n] + after) && PartitionNode(n, guid)
    requires forall b :: b in before ==> !GptNode(b)
    ensures (forall r :: r in m.rows ==> !EspWithGuid(r, guid)) ==> OptionTarget(m, num) == Nowhere
    ensures (exists r :: r in m.rows && EspWithGuid(r, guid)) ==>
              exists r :: r in m.rows && EspWithGuid(r, guid) && OptionTarget(m, num) == Reaching(DevPath(r.parent))
  {
    FirstGptBehind(before, n, after);
    PartitionOptionTarget(m, num, before + [n] + after, n);
    GptTargetFinds(m.rows, guid);
  }

  /** A node that neither names a disk nor ends the search. */
  predicate PassedOver(n: Node) {
    && !(n.typ == 3 && ((n.sub == 0x17 && |n.data| == 12) || n.sub in {0x0b, 0x0c, 0x0d, 0x18, 0x1a, 0x1d}))
    && !(n.typ == 4 && n.sub in {6, 7})
    && !(n.typ == 4 && n.sub == 1 && |n.data| == 38 && n.data[36] == 2 && n.data[37] == 2)
  }

  lemma {:induction false} PassingOver(m: Machine, before: seq<Node>, rest: seq<Node>)
    requires forall b :: b in before ==> PassedOver(b)
    ensures StorageTarget(m, before + rest) == StorageTarget(m, rest)
    ensures FirstGpt(before + rest) == FirstGpt(rest)
  {
    if before == [] {
      assert before + rest == rest;
    } else {
      assert (before + rest)[0] == before[0] && (before + rest)[1..] == before[1..] + rest;
      assert before[0] in before && forall b :: b in before[1..] ==> b in before;
      PassingOver(m, before[1..], rest);
    }
  }

  /** Of the disks a storage node matches: none leads nowhere, several cannot be told apart, one counts if it has an ESP. */
  function DiskChoice(m: Machine, matches: seq<Row>): Target {
    if |matches| > 1 then Undecidable
    else if |matches| == 1 && matches[0].path != "" && (exists r :: r in m.rows && FirmwareEsp(r) && DevPath(r.parent) == matches[0].path)
    then Disk(matches[0].path)
    else Nowhere
  }

  lemma ChoiceOfFound(m: Machine, matches: seq<Row>)
    ensures DiskChoice(m, matches)
         == match OnlyDisk(matches)
            case None => Undecidable
            case Some(path) => if path in EspDisks(m.rows) then Reaching(path) else Nowhere
  {
  }

  predicate NvmeWith(m: Machine, r: Row, nsid: nat, eui: seq<byte>) {
    var name := Base(r.path);
    && r.typ == "disk" && NvmeName(name) && name in m.sys && m.sys[name].nsid == Some(nsid)
    && ((forall i :: 0 <= i < |eui| ==> eui[i] == 0) || m.sys[name].eui == Some(eui))
  }

  lemma {:induction false} SelectAgrees<T>(s: seq<T>, p: T -> bool, q: T -> bool)
    requires forall x :: p(x) == q(x)
    ensures Select(s, p) == Select(s, q)
  {
    if s != [] {
      SelectAgrees(s[1..], p, q);
    }
  }

  /** An option without a partition node, whose first telling node is an NVMe namespace, leads to that namespace's disk. */
  lemma NvmeOptionReachesItsDisk(m: Machine, num: nat, before: seq<Node>, n: Node, after: seq<Node>)
    requires Stored(m, num, before + ([n] + after)) && FirstGpt(after).None?
    requires (forall b :: b in before ==> PassedOver(b)) && n.typ == 3 && n.sub == 0x17 && |n.data| == 12
    ensures OptionTarget(m, num)
         == DiskChoice(m, Select(m.rows, r => NvmeWith(m, r, FromLE(n.data[..4]), n.data[4..])))
  {
    PassingOver(m, before, [n] + after);
    assert ([n] + after)[1..] == after;
    var nsid, eui := FromLE(n.data[..4]), n.data[4..];
    assert (eui == seq(8, _ => 0)) <==> forall i :: 0 <= i < |eui| ==> eui[i] == 0;
    SelectAgrees(m.rows, r => NvmeMatches(m, r, nsid, eui), r => NvmeWith(m, r, nsid, eui));
    ChoiceOfFound(m, Select(m.rows, r => NvmeMatches(m, r, nsid, eui)));
  }

  predicate CardWith(m: Machine, r: Row, cardType: string) {
    var name := Base(r.path);
    r.typ == "disk" && MmcName(name) && name in m.sys && m.sys[name].cardType == cardType
  }

  /** Likewise an eMMC or an SD node leads to the only card of its type. */
  lemma CardOptionReachesItsDisk(m: Machine, num: nat, before: seq<Node>, n: Node, after: seq<Node>)
    requires Stored(m, num, before + ([n] + after)) && FirstGpt(after).None?
    requires (forall b :: b in before ==> PassedOver(b)) && n.typ == 3 && (n.sub == 0x1d || n.sub == 0x1a)
    ensures OptionTarget(m, num)
         == DiskChoice(m, Select(m.rows, r => CardWith(m, r, if n.sub == 0x1d then "MMC" else "SD")))
  {
    PassingOver(m, before, [n] + after);
    assert ([n] + after)[1..] == after;
    var cardType := if n.sub == 0x1d then "MMC" else "SD";
    SelectAgrees(m.rows, r => MmcMatches(m, r, cardType), r => CardWith(m, r, cardType));
    ChoiceOfFound(m, Select(m.rows, r => MmcMatches(m, r, if n.sub == 0x1d then "MMC" else "SD")));
  }

  /** A network node or a firmware application leads to no disk. */
  lemma NetworkOptionReachesNoDisk(m: Machine, num: nat, before: seq<Node>, n: Node, after: seq<Node>)
    requires Stored(m, num, before + ([n] + after)) && FirstGpt(after).None?
    requires forall b :: b in before ==> PassedOver(b)
    requires (n.typ == 3 && n.sub in {0x0b, 0x0c, 0x0d, 0x18}) || (n.typ == 4 && n.sub in {6, 7})
    ensures OptionTarget(m, num) == Nowhere
  {
    PassingOver(m, before, [n] + after);
    assert ([n] + after)[1..] == after;
    StorageOptionTarget(m, num, before + ([n] + after));
  }

  /** An unknown bus could reach only an ESP on a disk that is neither NVMe nor MMC. */
  lemma UnknownBusReachesNoKnownDisk(m: Machine, num: nat, nodes: seq<Node>)
    requires Stored(m, num, nodes) && forall b :: b in nodes ==> PassedOver(b)
    ensures OptionTarget(m, num) == if exists r :: StrangeEsp(m.rows, r) then Undecidable else Nowhere
  {
    PassingOver(m, nodes, []);
    assert nodes + [] == nodes;
    StorageOptionTarget(m, num, nodes);
    StrangeDisks(m.rows);
  }

  predicate StrangeEsp(rows: seq<Row>, r: Row) {
    r in rows && FirmwareEsp(r) && !NvmeName(Base(DevPath(r.parent))) && !MmcName(Base(DevPath(r.parent)))
  }

  lemma StrangeDisks(rows: seq<Row>)
    ensures (exists d :: d in EspDisks(rows) && !NvmeName(Base(d)) && !MmcName(Base(d))) <==> exists r :: StrangeEsp(rows, r)
  {
    if r :| StrangeEsp(rows, r) {
      assert DevPath(r.parent) in EspDisks(rows);
    }
    if d :| d in EspDisks(rows) && !NvmeName(Base(d)) && !MmcName(Base(d)) {
      var r :| r in rows && FirmwareEsp(r) && DevPath(r.parent) == d;
      assert StrangeEsp(rows, r);
    }
  }

  // ---- the spellings ----

  /** The partition type of an ESP, as stored and as printed. */
  lemma EspTypePrints(b: seq<byte>)
    requires |b| == 16
    requires b[0] == 0x28 && b[1] == 0x73 && b[2] == 0x2a && b[3] == 0xc1 && b[4] == 0x1f && b[5] == 0xf8
    requires b[6] == 0xd2 && b[7] == 0x11 && b[8..10] == [0xba, 0x4b] && b[10..16] == [0x00, 0xa0, 0xc9, 0x3e] + [0xc9, 0x3b]
    ensures FormatGuid(b) == "c12a7328" + "-" + "f81f" + "-" + "11d2" + "-" + "ba4b" + "-" + "00a0c93ec93b"
  {
    EspTypeFields();
    EspTypeTail();
  }

  lemma EspTypeFields()
    ensures Hex([0xc1, 0x2a, 0x73, 0x28]) == "c12a7328"
    ensures Hex([0xf8, 0x1f]) == "f81f" && Hex([0x11, 0xd2]) == "11d2" && Hex([0xba, 0x4b]) == "ba4b"
  {
    HexOfFour(0xc1, 0x2a, 0x73, 0x28);
    HexOfTwo(0xf8, 0x1f);
    HexOfTwo(0x11, 0xd2);
    HexOfTwo(0xba, 0x4b);
  }

  lemma EspTypeTail()
    ensures Hex([0x00, 0xa0, 0xc9, 0x3e] + [0xc9, 0x3b]) == "00a0c93ec93b"
  {
    HexOfFour(0x00, 0xa0, 0xc9, 0x3e);
    HexOfTwo(0xc9, 0x3b);
    HexAppend([0x00, 0xa0, 0xc9, 0x3e], [0xc9, 0x3b]);
  }

  lemma HexOfTwo(a: byte, b: byte)
    ensures Hex([a, b]) == [HexDigit(a / 16), HexDigit(a % 16), HexDigit(b / 16), HexDigit(b % 16)]
  {
    assert [a, b][1..] == [b];
    assert Hex([b]) == [HexDigit(b / 16), HexDigit(b % 16)] + Hex([]);
  }

  lemma HexOfFour(a: byte, b: byte, c: byte, d: byte)
    ensures Hex([a, b, c, d]) == [HexDigit(a / 16), HexDigit(a % 16), HexDigit(b / 16), HexDigit(b % 16),
                                  HexDigit(c / 16), HexDigit(c % 16), HexDigit(d / 16), HexDigit(d % 16)]
  {
    HexOfTwo(a, b);
    HexOfTwo(c, d);
    HexAppend([a, b], [c, d]);
    assert [a, b] + [c, d] == [a, b, c, d];
  }

  lemma {:induction false} HexAppend(a: seq<byte>, b: seq<byte>)
    ensures Hex(a + b) == Hex(a) + Hex(b)
  {
    if a == [] {
      assert a + b == b;
    } else {
      assert (a + b)[0] == a[0] && (a + b)[1..] == a[1..] + b;
      HexAppend(a[1..], b);
    }
  }

  lemma {:induction false} BaseOfDevice(name: string)
    requires forall i :: 0 <= i < |name| ==> name[i] != '/'
    ensures Base("/dev/" + name) == name
  {
    var path := "/dev/" + name;
    if name != "" {
      assert path[..|path| - 1] == "/dev/" + name[..|name| - 1];
      BaseOfDevice(name[..|name| - 1]);
    }
  }

  /** A controller and a namespace number make an NVMe disk; a partition of it has a p in its name and is none. */
  lemma NvmeDiskNames(controller: string, namespace_: string, s: string, i: nat)
    requires Digits(controller) && Digits(namespace_)
    requires 4 <= i < |s| && s[i] == 'p'
    ensures NvmeName("nvme" + controller + "n" + namespace_)
    ensures !NvmeName(s)
  {
    var name := "nvme" + controller + "n" + namespace_;
    var k := 4 + |controller|;
    assert name[k] == 'n' && name[4..k] == controller && name[k + 1..] == namespace_;
    forall j | 4 <= j < |s| && s[j] == 'n'
      ensures !(Digits(s[4..j]) && Digits(s[j + 1..]))
    {
      if i < j {
        assert s[4..j][i - 4] == 'p';
      } else {
        assert s[j + 1..][i - j - 1] == 'p';
      }
    }
  }

  /** A number makes an MMC disk; a partition or a boot area is none. */
  lemma MmcDiskNames(rest: string)
    ensures MmcName("mmcblk" + rest) <==> rest != "" && forall i :: 0 <= i < |rest| ==> '0' <= rest[i] <= '9'
  {
    assert ("mmcblk" + rest)[6..] == rest;
  }

  // ---- what cannot be told, and what the verdict names ----

  /** An absent option leads nowhere; one that cannot be read or parsed might lead anywhere. */
  lemma UnreadableIsUndecidable(m: Machine, num: nat)
    ensures num !in m.boot || m.boot[num].Absent? ==> OptionTarget(m, num) == Nowhere
    ensures num in m.boot && m.boot[num].Unreadable? ==> OptionTarget(m, num) == Undecidable
    ensures num in m.boot && m.boot[num].Present? && (|m.boot[num].raw| < 4 || Parse(m.boot[num].raw[4..]).None?) ==>
              OptionTarget(m, num) == Undecidable
  {
  }

  /** The first option in the order that does not lead nowhere. */
  predicate Telling(m: Machine, order: seq<nat>, i: nat) {
    i < |order| && OptionTarget(m, order[i]) != Nowhere && forall j :: 0 <= j < i ==> OptionTarget(m, order[j]) == Nowhere
  }

  /** What the walk answers when this option is the telling one. */
  function VerdictOf(m: Machine, num: nat, disk: string): Verdict {
    match OptionTarget(m, num)
    case Disk(path) => if path == disk then Accepted else Elsewhere(path, num)
    case _ => CannotTell
  }

  /** Each verdict comes from that option, and names it and where it leads. */
  lemma {:induction false} VerdictNamesTheTellingOption(m: Machine, order: seq<nat>, disk: string, i: nat)
    requires disk != "" && Telling(m, order, i)
    ensures Walk(m, order, disk) == VerdictOf(m, order[i], disk)
  {
    if i > 0 {
      assert forall j :: 0 <= j < i - 1 ==> order[1..][j] == order[j + 1];
      VerdictNamesTheTellingOption(m, order[1..], disk, i - 1);
    }
  }

  /** Without one there is no option that leads to the disk. */
  lemma {:induction false} NothingTellsMeansNoOption(m: Machine, order: seq<nat>, disk: string)
    requires disk != "" && forall i :: 0 <= i < |order| ==> OptionTarget(m, order[i]) == Nowhere
    ensures Walk(m, order, disk) == NoOption
  {
    if order != [] {
      assert forall i :: 0 <= i < |order[1..]| ==> order[1..][i] == order[i + 1];
      NothingTellsMeansNoOption(m, order[1..], disk);
    }
  }

  /** A firmware ESP is a vfat partition of the ESP type, however the type is spelled. */
  lemma EspIff(rows: seq<Row>, d: string)
    ensures d in EspDisks(rows)
            <==> exists r :: r in rows && r.typ == "part" && r.fsType == "vfat" && DevPath(r.parent) == d
                             && EqualFold(r.partType, "c12a7328-f81f-11d2-ba4b-00a0c93ec93b")
    ensures EqualFold("C12A", "c12a") && !EqualFold("c12a", "c12b")
  {
    assert Lower("C12A") == "c12a" && Lower("c12a")[3] == 'a' && Lower("c12b")[3] == 'b';
    if d in EspDisks(rows) {
      var r :| r in rows && FirmwareEsp(r) && DevPath(r.parent) == d;
      assert EqualFold(r.partType, "c12a7328-f81f-11d2-ba4b-00a0c93ec93b");
    }
  }
}
