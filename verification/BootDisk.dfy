/**
 Which disk's ESP the firmware takes a capsule from: the first BootNext or
 BootOrder option that reaches any ESP, and whether that is the running root's.
 */
module BootDisk {
  import opened Basics
  import opened LittleEndian
  import opened LoadOption
  import opened Search

  // ---- the inventory ----

  /** One lsblk row; a whole disk has no parent. */
  datatype Row = Row(path: string, parent: string, partUuid: string, partType: string, typ: string, fsType: string)

  /** What sysfs says about a block device. */
  datatype SysBlock = SysBlock(nsid: Option<nat>, eui: Option<seq<byte>>, cardType: string)

  /** A boot variable: absent, present, or unreadable. */
  datatype BootVar = Absent | Present(raw: seq<byte>) | Unreadable

  datatype Machine = Machine(rows: seq<Row>, sys: map<string, SysBlock>, boot: map<nat, BootVar>)

  const ESP_TYPE := "c12a7328-f81f-11d2-ba4b-00a0c93ec93b"

  function LowerChar(c: char): char {
    if 'A' <= c <= 'Z' then (c as int + 32) as char else c
  }

  function Lower(s: string): string {
    seq(|s|, i requires 0 <= i < |s| => LowerChar(s[i]))
  }

  predicate EqualFold(a: string, b: string) {
    Lower(a) == Lower(b)
  }

  function DevPath(name: string): string {
    if name != "" && name[0] != '/' then "/dev/" + name else name
  }

  function Base(path: string): string {
    if path == "" then "" else if path[|path| - 1] == '/' then "" else Base(path[..|path| - 1]) + [path[|path| - 1]]
  }

  predicate Digits(s: string) {
    s != "" && forall i :: 0 <= i < |s| ==> '0' <= s[i] <= '9'
  }

  predicate NvmeName(s: string) {
    "nvme" <= s && exists i :: 4 <= i < |s| && s[i] == 'n' && Digits(s[4..i]) && Digits(s[i + 1..])
  }

  predicate MmcName(s: string) {
    "mmcblk" <= s && Digits(s[6..])
  }

  predicate FirmwareEsp(r: Row) {
    r.typ == "part" && EqualFold(r.partType, ESP_TYPE) && r.fsType == "vfat"
  }

  function EspDisks(rows: seq<Row>): set<string> {
    set r | r in rows && FirmwareEsp(r) :: DevPath(r.parent)
  }

  method FirmwareEspDisks(rows: seq<Row>) returns (disks: set<string>)
    ensures disks == EspDisks(rows)
  {
    disks := {};
    for i := 0 to |rows|
      invariant disks == EspDisks(rows[..i])
    {
      assert rows[..i + 1] == rows[..i] + [rows[i]];
      if FirmwareEsp(rows[i]) { disks := disks + {DevPath(rows[i].parent)}; }
    }
    assert rows[..|rows|] == rows;
  }

  // ---- GUIDs ----

  function HexDigit(n: nat): char
    requires n < 16
  {
    "0123456789abcdef"[n]
  }

  function Hex(b: seq<byte>): (s: string)
    ensures |s| == 2 * |b|
  {
    if b == [] then "" else [HexDigit(b[0] / 16), HexDigit(b[0] % 16)] + Hex(b[1..])
  }

  /** The first three fields of an EFI_GUID are little-endian. */
  function FormatGuid(b: seq<byte>): (s: string)
    requires |b| == 16
    ensures |s| == 36
  {
    Hex([b[3], b[2], b[1], b[0]]) + "-" + Hex([b[5], b[4]]) + "-" + Hex([b[7], b[6]])
    + "-" + Hex(b[8..10]) + "-" + Hex(b[10..16])
  }

  lemma HexDigitInjective(m: nat, n: nat)
    requires m < 16 && n < 16 && HexDigit(m) == HexDigit(n)
    ensures m == n
  {
  }

  lemma {:induction false} HexInjective(a: seq<byte>, b: seq<byte>)
    requires |a| == |b| && Hex(a) == Hex(b)
    ensures a == b
  {
    if a != [] {
      assert Hex(a)[0] == Hex(b)[0] && Hex(a)[1] == Hex(b)[1];
      HexDigitInjective(a[0] / 16, b[0] / 16);
      HexDigitInjective(a[0] % 16, b[0] % 16);
      assert Hex(a)[2..] == Hex(a[1..]) && Hex(b)[2..] == Hex(b[1..]);
      HexInjective(a[1..], b[1..]);
      assert a == [a[0]] + a[1..] && b == [b[0]] + b[1..];
    }
  }

  /** The hexadecimal fields of a printed GUID, at their places. */
  lemma GuidFields(b: seq<byte>)
    requires |b| == 16
    ensures var s := FormatGuid(b);
            && s[0..8] == Hex([b[3], b[2], b[1], b[0]]) && s[9..13] == Hex([b[5], b[4]])
            && s[14..18] == Hex([b[7], b[6]]) && s[19..23] == Hex(b[8..10]) && s[24..36] == Hex(b[10..16])
  {
  }

  /** Two partitions whose GUIDs print alike have the same GUID. */
  lemma FormatGuidInjective(a: seq<byte>, b: seq<byte>)
    requires |a| == |b| == 16 && FormatGuid(a) == FormatGuid(b)
    ensures a == b
  {
    GuidFields(a);
    GuidFields(b);
    var a0, b0 := [a[3], a[2], a[1], a[0]], [b[3], b[2], b[1], b[0]];
    HexInjective(a0, b0);
    assert a0[0] == b0[0] && a0[1] == b0[1] && a0[2] == b0[2] && a0[3] == b0[3];
    var a1, b1 := [a[5], a[4]], [b[5], b[4]];
    HexInjective(a1, b1);
    assert a1[0] == b1[0] && a1[1] == b1[1];
    var a2, b2 := [a[7], a[6]], [b[7], b[6]];
    HexInjective(a2, b2);
    assert a2[0] == b2[0] && a2[1] == b2[1];
    HexInjective(a[8..10], b[8..10]);
    HexInjective(a[10..16], b[10..16]);
    forall i | 8 <= i < 16
      ensures a[i] == b[i]
    {
      assert i < 10 ==> a[8..10][i - 8] == b[8..10][i - 8];
      assert i >= 10 ==> a[10..16][i - 10] == b[10..16][i - 10];
    }
  }

  // ---- one boot option ----

  /** Where an option leads: to the ESP of a disk, to none, or nobody can tell. */
  datatype Target = Disk(path: string) | Nowhere | Undecidable

  /** A partition without a parent disk counts as leading nowhere: an empty path is how the code says so. */
  function Reaching(path: string): Target {
    if path == "" then Nowhere else Disk(path)
  }

  function OnlyDisk(found: seq<Row>): Option<string> {
    if |found| > 1 then None else if |found| == 1 then Some(found[0].path) else Some("")
  }

  predicate NvmeMatches(m: Machine, r: Row, nsid: nat, eui: seq<byte>) {
    var name := Base(r.path);
    && r.typ == "disk" && NvmeName(name)
    && name in m.sys && m.sys[name].nsid == Some(nsid)
    && (eui != seq(8, _ => 0) ==> m.sys[name].eui == Some(eui))
  }

  predicate MmcMatches(m: Machine, r: Row, cardType: string) {
    var name := Base(r.path);
    r.typ == "disk" && MmcName(name) && name in m.sys && m.sys[name].cardType == cardType
  }

  method NvmeDisk(m: Machine, nsid: nat, eui: seq<byte>) returns (r: Option<string>)
    ensures r == OnlyDisk(Select(m.rows, row => NvmeMatches(m, row, nsid, eui)))
  {
    var found: seq<Row> := [];
    for i := 0 to |m.rows|
      invariant found == Select(m.rows[..i], row => NvmeMatches(m, row, nsid, eui))
    {
      assert m.rows[..i + 1] == m.rows[..i] + [m.rows[i]];
      SelectAppend(m.rows[..i], [m.rows[i]], row => NvmeMatches(m, row, nsid, eui));
      if NvmeMatches(m, m.rows[i], nsid, eui) { found := found + [m.rows[i]]; }
    }
    assert m.rows[..|m.rows|] == m.rows;
    return OnlyDisk(found);
  }

  method MmcDisk(m: Machine, cardType: string) returns (r: Option<string>)
    ensures r == OnlyDisk(Select(m.rows, row => MmcMatches(m, row, cardType)))
  {
    var found: seq<Row> := [];
    for i := 0 to |m.rows|
      invariant found == Select(m.rows[..i], row => MmcMatches(m, row, cardType))
    {
      assert m.rows[..i + 1] == m.rows[..i] + [m.rows[i]];
      SelectAppend(m.rows[..i], [m.rows[i]], row => MmcMatches(m, row, cardType));
      if MmcMatches(m, m.rows[i], cardType) { found := found + [m.rows[i]]; }
    }
    assert m.rows[..|m.rows|] == m.rows;
    return OnlyDisk(found);
  }

  /** A GPT partition node with a GUID signature. */
  predicate GptNode(n: Node) {
    n.typ == 4 && n.sub == 1 && |n.data| == 38 && n.data[36] == 2 && n.data[37] == 2
  }

  predicate NetworkOrApplication(n: Node) {
    (n.typ == 3 && (n.sub == 0x0b || n.sub == 0x0c || n.sub == 0x0d || n.sub == 0x18))
    || (n.typ == 4 && (n.sub == 6 || n.sub == 7))
  }

  /** The disk a storage node names: None for a node that names no storage. */
  datatype Named = NotStorage | Ambiguous | Names(path: string)

  function NamedDisk(m: Machine, n: Node): Named {
    var found: Option<Option<string>> :=
      if n.typ == 3 && n.sub == 0x17 && |n.data| == 12 then
        Some(OnlyDisk(Select(m.rows, row => NvmeMatches(m, row, FromLE(n.data[..4]), n.data[4..]))))
      else if n.typ == 3 && n.sub == 0x1d then Some(OnlyDisk(Select(m.rows, row => MmcMatches(m, row, "MMC"))))
      else if n.typ == 3 && n.sub == 0x1a then Some(OnlyDisk(Select(m.rows, row => MmcMatches(m, row, "SD"))))
      else None;
    match found
    case None => NotStorage
    case Some(None) => Ambiguous
    case Some(Some(path)) => Names(path)
  }

  function GptTarget(rows: seq<Row>, guid: string): Target {
    if rows == [] then Nowhere
    else if EqualFold(rows[0].partUuid, guid) && FirmwareEsp(rows[0]) then Reaching(DevPath(rows[0].parent))
    else GptTarget(rows[1..], guid)
  }

  /** The first node that decides, in the order the nodes come. */
  function StorageTarget(m: Machine, nodes: seq<Node>): Target {
    if nodes == [] then
      if exists d :: d in EspDisks(m.rows) && !NvmeName(Base(d)) && !MmcName(Base(d)) then Undecidable else Nowhere
    else
      match NamedDisk(m, nodes[0])
      case Ambiguous => Undecidable
      case Names(path) => if path in EspDisks(m.rows) then Reaching(path) else Nowhere
      case NotStorage => if NetworkOrApplication(nodes[0]) then Nowhere else StorageTarget(m, nodes[1..])
  }

  function FirstGpt(nodes: seq<Node>): Option<Node> {
    if nodes == [] then None else if GptNode(nodes[0]) then Some(nodes[0]) else FirstGpt(nodes[1..])
  }

  lemma FirstGptIsGpt(nodes: seq<Node>)
    ensures FirstGpt(nodes).Some? ==> GptNode(FirstGpt(nodes).value)
  {
  }

  /** Inactive and legacy options are skipped by the firmware. */
  predicate Skipped(o: BootOption) {
    o.attributes % 2 == 0 || (o.nodes != [] && o.nodes[0].typ == 5)
  }

  function NodesTarget(m: Machine, nodes: seq<Node>): Target {
    match FirstGpt(nodes)
    case Some(n) => FirstGptIsGpt(nodes); GptTarget(m.rows, FormatGuid(n.data[20..36]))
    case None => StorageTarget(m, nodes)
  }

  function OptionTarget(m: Machine, num: nat): Target {
    match if num in m.boot then m.boot[num] else Absent
    case Absent => Nowhere
    case Unreadable => Undecidable
    case Present(raw) =>
      if |raw| < 4 then Undecidable
      else
        match Parse(raw[4..])
        case None => Undecidable
        case Some(o) => if Skipped(o) then Nowhere else NodesTarget(m, o.nodes)
  }

  method StorageDisk(m: Machine, nodes: seq<Node>) returns (t: Target)
    ensures t == StorageTarget(m, nodes)
  {
    var espDisks := FirmwareEspDisks(m.rows);
    for i := 0 to |nodes|
      invariant StorageTarget(m, nodes) == StorageTarget(m, nodes[i..])
    {
      var n := nodes[i];
      assert nodes[i..][0] == n && nodes[i..][1..] == nodes[i + 1..];
      var disk: Option<string>;
      if n.typ == 3 && n.sub == 0x17 && |n.data| == 12 {
        disk := NvmeDisk(m, FromLE(n.data[..4]), n.data[4..]);
      } else if n.typ == 3 && n.sub == 0x1d {
        disk := MmcDisk(m, "MMC");
      } else if n.typ == 3 && n.sub == 0x1a {
        disk := MmcDisk(m, "SD");
      } else if NetworkOrApplication(n) {
        return Nowhere;
      } else {
        continue;
      }
      if disk.None? { return Undecidable; }
      if disk.value !in espDisks { return Nowhere; }
      return Reaching(disk.value);
    }
    assert nodes[|nodes|..] == [];
    if exists d :: d in espDisks && !NvmeName(Base(d)) && !MmcName(Base(d)) { return Undecidable; }
    return Nowhere;
  }

  method GptDisk(m: Machine, guid: string) returns (t: Target)
    ensures t == GptTarget(m.rows, guid)
  {
    for i := 0 to |m.rows|
      invariant GptTarget(m.rows, guid) == GptTarget(m.rows[i..], guid)
    {
      assert m.rows[i..][1..] == m.rows[i + 1..];
      if EqualFold(m.rows[i].partUuid, guid) && FirmwareEsp(m.rows[i]) { return Reaching(DevPath(m.rows[i].parent)); }
    }
    assert m.rows[|m.rows|..] == [];
    return Nowhere;
  }

  method BootOptionDisk(m: Machine, num: nat) returns (t: Target)
    ensures t == OptionTarget(m, num)
  {
    var v := if num in m.boot then m.boot[num] else Absent;
    if v.Absent? { return Nowhere; }
    if v.Unreadable? || |v.raw| < 4 { return Undecidable; }
    var parsed := ParseLoadOption(v.raw[4..]);
    if parsed.None? { return Undecidable; }
    if Skipped(parsed.value) { return Nowhere; }
    var nodes := parsed.value.nodes;
    for i := 0 to |nodes|
      invariant FirstGpt(nodes) == FirstGpt(nodes[i..])
    {
      assert nodes[i..][0] == nodes[i] && nodes[i..][1..] == nodes[i + 1..];
      if GptNode(nodes[i]) {
        t := GptDisk(m, FormatGuid(nodes[i].data[20..36]));
        return;
      }
    }
    assert nodes[|nodes|..] == [];
    t := StorageDisk(m, nodes);
  }

  // ---- the walk ----

  datatype Verdict = Accepted | Elsewhere(path: string, num: nat) | NoOption | CannotTell

  /** The target is compared with the disk first: an ESP without a parent disk matches an option that leads nowhere. */
  function Walk(m: Machine, order: seq<nat>, disk: string): Verdict {
    if order == [] then NoOption
    else
      var t := OptionTarget(m, order[0]);
      if t == Undecidable then CannotTell
      else if t == Reaching(disk) then Accepted
      else if t.Disk? then Elsewhere(t.path, order[0])
      else Walk(m, order[1..], disk)
  }

  /** BootNext, then BootOrder; None when BootOrder is missing or malformed. */
  function SearchOrder(bootNext: BootVar, bootOrder: BootVar): Option<seq<nat>> {
    if bootNext.Unreadable? || !bootOrder.Present? || |bootOrder.raw| < 4 || |bootOrder.raw| % 2 != 0 then None
    else Some((if bootNext.Present? && |bootNext.raw| == 6 then [FromLE(bootNext.raw[4..6])] else [])
              + Words(bootOrder.raw[4..]))
  }

  function Words(raw: seq<byte>): seq<nat>
    requires |raw| % 2 == 0
  {
    if raw == [] then [] else [FromLE(raw[..2])] + Words(raw[2..])
  }

  function Unwords(order: seq<nat>): (raw: seq<byte>)
    ensures |raw| % 2 == 0
  {
    if order == [] then [] else ToLE(order[0], 2) + Unwords(order[1..])
  }

  /** Every stored boot order is read back entry by entry. */
  lemma {:induction false} WordsInvertUnwords(order: seq<nat>)
    requires forall n :: n in order ==> n < 0x1_0000
    ensures Words(Unwords(order)) == order
  {
    if order != [] {
      assert order[0] in order && forall n :: n in order[1..] ==> n in order;
      assert Unwords(order)[..2] == ToLE(order[0], 2) && Unwords(order)[2..] == Unwords(order[1..]);
      assert Pow256(2) == 0x1_0000;
      FromToLE(order[0], 2);
      WordsInvertUnwords(order[1..]);
    }
  }

  method BootOptionOrder(bootNext: BootVar, bootOrder: BootVar) returns (r: Option<seq<nat>>)
    ensures r == SearchOrder(bootNext, bootOrder)
  {
    var order: seq<nat> := [];
    if bootNext.Unreadable? { return None; }
    if bootNext.Present? && |bootNext.raw| == 6 {
      order := [FromLE(bootNext.raw[4..6])];
    }
    if !bootOrder.Present? { return None; }
    var raw := bootOrder.raw;
    if |raw| < 4 || |raw| % 2 != 0 { return None; }
    var i := 4;
    ghost var first := order;
    while i < |raw|
      invariant 4 <= i <= |raw| && i % 2 == 0
      invariant first + Words(raw[4..]) == order + Words(raw[i..])
    {
      assert raw[i..][..2] == raw[i..i + 2] && raw[i..][2..] == raw[i + 2..];
      Assoc(order, [FromLE(raw[i..i + 2])], Words(raw[i + 2..]));
      order := order + [FromLE(raw[i..i + 2])];
      i := i + 2;
    }
    assert order + Words(raw[i..]) == order;
    return Some(order);
  }

  /** checkFirmwareCapsuleDisk for an ESP on `disk`. */
  function CapsuleDisk(m: Machine, disk: string, bootNext: BootVar, bootOrder: BootVar): Verdict {
    if EspDisks(m.rows) == {} || EspDisks(m.rows) == {disk} then Accepted
    else
      match SearchOrder(bootNext, bootOrder)
      case None => CannotTell
      case Some(order) => Walk(m, order, disk)
  }

  method CheckFirmwareCapsuleDisk(m: Machine, disk: string, bootNext: BootVar, bootOrder: BootVar) returns (v: Verdict)
    ensures v == CapsuleDisk(m, disk, bootNext, bootOrder)
  {
    var espDisks := FirmwareEspDisks(m.rows);
    if espDisks == {} || espDisks == {disk} { return Accepted; }
    var r := BootOptionOrder(bootNext, bootOrder);
    if r.None? { return CannotTell; }
    var order := r.value;
    for i := 0 to |order|
      invariant Walk(m, order, disk) == Walk(m, order[i..], disk)
    {
      assert order[i..][0] == order[i] && order[i..][1..] == order[i + 1..];
      var t := BootOptionDisk(m, order[i]);
      if t.Undecidable? { return CannotTell; }
      if t == Reaching(disk) { return Accepted; }
      if t.Disk? { return Elsewhere(t.path, order[i]); }
    }
    assert order[|order|..] == [];
    return NoOption;
  }

  // ---- what the walk guarantees ----

  lemma {:induction false} GptTargetIsEspDisk(rows: seq<Row>, guid: string)
    ensures GptTarget(rows, guid).Disk? ==> GptTarget(rows, guid).path in EspDisks(rows)
    ensures !GptTarget(rows, guid).Undecidable?
  {
    if rows != [] {
      GptTargetIsEspDisk(rows[1..], guid);
      assert EspDisks(rows[1..]) <= EspDisks(rows);
      assert rows[0] in rows;
    }
  }

  lemma {:induction false} StorageTargetIsEspDisk(m: Machine, nodes: seq<Node>)
    ensures StorageTarget(m, nodes).Disk? ==> StorageTarget(m, nodes).path in EspDisks(m.rows)
  {
    if nodes != [] {
      StorageTargetIsEspDisk(m, nodes[1..]);
    }
  }

  /** An option never leads to a disk without an ESP. */
  lemma OptionTargetIsEspDisk(m: Machine, num: nat)
    ensures OptionTarget(m, num).Disk? ==> OptionTarget(m, num).path in EspDisks(m.rows)
  {
    if num in m.boot && m.boot[num].Present? && |m.boot[num].raw| >= 4 && Parse(m.boot[num].raw[4..]).Some? {
      var nodes := Parse(m.boot[num].raw[4..]).value.nodes;
      if FirstGpt(nodes).Some? {
        FirstGptIsGpt(nodes);
        GptTargetIsEspDisk(m.rows, FormatGuid(FirstGpt(nodes).value.data[20..36]));
      } else {
        StorageTargetIsEspDisk(m, nodes);
      }
    }
  }

  /** The first option that leads anywhere leads to this disk. */
  ghost predicate Leads(m: Machine, order: seq<nat>, disk: string) {
    exists i :: 0 <= i < |order| && FirstReaching(m, order, disk, i)
  }

  ghost predicate FirstReaching(m: Machine, order: seq<nat>, disk: string, i: nat)
    requires i < |order|
  {
    OptionTarget(m, order[i]) == Reaching(disk) && forall j :: 0 <= j < i ==> OptionTarget(m, order[j]) == Nowhere
  }

  /** The walk accepts exactly when the first option that leads anywhere leads to the root's disk. */
  lemma {:induction false} AcceptedIffFirstReachesRoot(m: Machine, order: seq<nat>, disk: string)
    ensures Walk(m, order, disk) == Accepted <==> Leads(m, order, disk)
  {
    if order != [] {
      var t, rest := OptionTarget(m, order[0]), order[1..];
      if t == Reaching(disk) {
        assert FirstReaching(m, order, disk, 0);
      } else if t == Nowhere {
        AcceptedIffFirstReachesRoot(m, rest, disk);
        LeadsBeyondNowhere(m, order, disk);
      }
    }
  }

  lemma LeadsBeyondNowhere(m: Machine, order: seq<nat>, disk: string)
    requires order != [] && OptionTarget(m, order[0]) == Nowhere != Reaching(disk)
    ensures Leads(m, order, disk) <==> Leads(m, order[1..], disk)
  {
    var rest := order[1..];
    if i :| 0 <= i < |rest| && FirstReaching(m, rest, disk, i) {
      assert forall j :: 0 <= j < i + 1 ==> j == 0 || order[j] == rest[j - 1];
      assert FirstReaching(m, order, disk, i + 1);
    }
    if i :| 0 <= i < |order| && FirstReaching(m, order, disk, i) {
      assert forall j :: 0 <= j < i - 1 ==> rest[j] == order[j + 1];
      assert FirstReaching(m, rest, disk, i - 1);
    }
  }

  /** Whatever BootNext holds: the options it puts before BootOrder. */
  function OneTime(bootNext: BootVar): seq<nat> {
    if bootNext.Present? && |bootNext.raw| == 6 then [FromLE(bootNext.raw[4..6])] else []
  }

  /**
   An ESP is accepted exactly when no other disk carries one, or when BootNext
   and BootOrder can be read and lead the firmware to it first.
   */
  lemma CapsuleDiskAcceptedIff(m: Machine, disk: string, bootNext: BootVar, bootOrder: BootVar)
    ensures CapsuleDisk(m, disk, bootNext, bootOrder) == Accepted
            <==> (forall r :: r in m.rows && FirmwareEsp(r) ==> DevPath(r.parent) == disk)
                 || (&& !bootNext.Unreadable?
                     && bootOrder.Present? && |bootOrder.raw| >= 4 && |bootOrder.raw| % 2 == 0
                     && Leads(m, OneTime(bootNext) + Words(bootOrder.raw[4..]), disk))
  {
    OnlyDiskIff(m.rows, disk);
    if SearchOrder(bootNext, bootOrder).Some? {
      AcceptedIffFirstReachesRoot(m, SearchOrder(bootNext, bootOrder).value, disk);
    }
  }

  lemma OnlyDiskIff(rows: seq<Row>, disk: string)
    ensures EspDisks(rows) <= {disk} <==> forall r :: r in rows && FirmwareEsp(r) ==> DevPath(r.parent) == disk
    ensures EspDisks(rows) <= {disk} <==> EspDisks(rows) == {} || EspDisks(rows) == {disk}
  {
    if EspDisks(rows) <= {disk} {
      forall r | r in rows && FirmwareEsp(r)
        ensures DevPath(r.parent) == disk
      {
        assert DevPath(r.parent) in EspDisks(rows);
      }
      assert EspDisks(rows) == {} || EspDisks(rows) == {disk};
    }
  }

  /** BootNext as the firmware stores it, or absent. */
  function StoredNext(next: Option<nat>, attrs: seq<byte>): BootVar {
    if next.Some? then Present(attrs + ToLE(next.value, 2)) else Absent
  }

  function Listed(next: Option<nat>): seq<nat> {
    if next.Some? then [next.value] else []
  }

  lemma StoredNextIsRead(next: Option<nat>, attrs: seq<byte>)
    requires |attrs| == 4 && (next.Some? ==> next.value < 0x1_0000)
    ensures OneTime(StoredNext(next, attrs)) == Listed(next)
  {
    if next.Some? {
      assert StoredNext(next, attrs).raw[4..6] == ToLE(next.value, 2);
      assert Pow256(2) == 0x1_0000;
      FromToLE(next.value, 2);
    }
  }

  lemma StoredOrderIsRead(order: seq<nat>, attrs: seq<byte>)
    requires |attrs| == 4 && forall n :: n in order ==> n < 0x1_0000
    ensures |attrs + Unwords(order)| % 2 == 0 && Words((attrs + Unwords(order))[4..]) == order
  {
    WordsInvertUnwords(order);
    assert (attrs + Unwords(order))[4..] == Unwords(order);
  }

  /** In terms of what is stored, with ESPs elsewhere: the one-time choice decides first, then the order. */
  lemma StoredOrderDecides(m: Machine, disk: string, next: Option<nat>, order: seq<nat>, attrs: seq<byte>, r: Row)
    requires |attrs| == 4 && (next.Some? ==> next.value < 0x1_0000) && forall n :: n in order ==> n < 0x1_0000
    requires r in m.rows && FirmwareEsp(r) && DevPath(r.parent) != disk
    ensures CapsuleDisk(m, disk, StoredNext(next, attrs), Present(attrs + Unwords(order))) == Accepted
            <==> Leads(m, Listed(next) + order, disk)
  {
    StoredNextIsRead(next, attrs);
    StoredOrderIsRead(order, attrs);
    CapsuleDiskAcceptedIff(m, disk, StoredNext(next, attrs), Present(attrs + Unwords(order)));
  }

  /** An option that leads nowhere may stand anywhere in the order: for a real disk the verdict stays. */
  lemma {:induction false} InsertingNowhereChangesNothing(m: Machine, a: seq<nat>, num: nat, b: seq<nat>, disk: string)
    requires OptionTarget(m, num) == Nowhere && disk != ""
    ensures Walk(m, a + [num] + b, disk) == Walk(m, a + b, disk)
  {
    if a == [] {
      assert ([] + [num] + b)[1..] == b && [] + b == b;
    } else {
      assert (a + [num] + b)[1..] == a[1..] + [num] + b && (a + b)[1..] == a[1..] + b;
      InsertingNowhereChangesNothing(m, a[1..], num, b, disk);
    }
  }

  /** For an ESP without a parent disk it does not: an option that leads nowhere is taken for its own. */
  lemma ParentlessEspIsAccepted(m: Machine, num: nat)
    requires OptionTarget(m, num) == Nowhere
    ensures Walk(m, [num], "") == Accepted && Walk(m, [], "") == NoOption
  {
  }

  /** Dangling, inactive and legacy entries are such options, whatever else they hold. */
  lemma InactiveLeadsNowhere(m: Machine, num: nat, attributes: nat, description: seq<byte>, nodes: seq<Node>,
                             more: seq<byte>, optional: seq<byte>, header: seq<byte>)
    requires |header| == 4 && attributes < 0x1_0000_0000 && Description(description)
    requires attributes % 2 == 0 || (nodes != [] && nodes[0].typ == 5)
    requires forall n :: n in nodes ==> WellFormedNode(n)
    requires |EncodeNodes(nodes) + END_NODE + more| < 0x1_0000
    requires num in m.boot && m.boot[num] == Present(header + Encode(attributes, description, nodes, more, optional))
    ensures OptionTarget(m, num) == Nowhere
    ensures forall k :: k !in m.boot ==> OptionTarget(m, k) == Nowhere
  {
    ParseInvertsEncode(attributes, description, nodes, more, optional);
    assert m.boot[num].raw[4..] == Encode(attributes, description, nodes, more, optional);
  }
}
