/**
 Slot to partition resolution on U-Boot and GRUB boards, from the partition list
 of lsblk and the device mounted at /.
 */
module EnvSlots {
  import opened Basics
  import opened Search

  /** One lsblk row: device, GPT name, filesystem label, parent disk. */
  datatype Row = Row(path: string, partlabel: string, fslabel: string, pkname: string)

  /** GPT boards name slots by partlabel; U-Boot also serves MBR tables, by number. */
  datatype Board = UBoot | Grub

  /**
   `root` is the device mounted at /, `rows` the partition list, `links` the
   udev by-partlabel and by-label links, `canon` symlink resolution.
   */
  datatype System = System(board: Board, root: Option<string>, rows: Option<seq<Row>>,
                           links: map<string, string>, canon: string -> string)

  function Label(s: Slot): string {
    if s == SlotA then "rootfsA" else "rootfsB"
  }

  function MbrNumber(s: Slot): int {
    if s == SlotB then 3 else 2
  }

  function EffectiveLabel(r: Row): string {
    if r.partlabel != "" then r.partlabel else r.fslabel
  }

  function TrimPrefix(s: string, prefix: string): string {
    if prefix <= s then s[|prefix|..] else s
  }

  function PartNum(r: Row): Option<int> {
    if r.pkname == "" then None
    else Atoi(TrimPrefix(TrimPrefix(TrimPrefix(r.path, "/dev/"), r.pkname), "p"))
  }

  // ---- specification ----

  predicate HasPartlabel(rows: seq<Row>, disk: string) {
    exists r :: r in rows && r.pkname == disk && r.partlabel != ""
  }

  function InDisk(disk: string): Row -> bool {
    (r: Row) => r.pkname == disk
  }

  function IsDevice(y: System, dev: string): Row -> bool {
    (r: Row) => y.canon(r.path) == dev
  }

  function HasLabel(disk: string, s: Slot): Row -> bool {
    (r: Row) => r.pkname == disk && EffectiveLabel(r) == Label(s)
  }

  function HasNumber(disk: string, s: Slot): Row -> bool {
    (r: Row) => r.pkname == disk && PartNum(r) == Some(MbrNumber(s))
  }

  function RootRow(y: System): Option<Row> {
    if y.rows.None? || (y.root.None? && y.board == UBoot) then None
    else
      var root := y.canon(if y.root.Some? then y.root.value else "");
      First(y.rows.value, IsDevice(y, root))
  }

  function LinkTarget(y: System, s: Slot): Option<string> {
    if "/dev/disk/by-partlabel/" + Label(s) in y.links then Some(y.links["/dev/disk/by-partlabel/" + Label(s)])
    else if "/dev/disk/by-label/" + Label(s) in y.links then Some(y.links["/dev/disk/by-label/" + Label(s)])
    else None
  }

  function ByLabel(rows: seq<Row>, disk: string, s: Slot): Option<Row> {
    First(rows, HasLabel(disk, s))
  }

  function ByNumber(rows: seq<Row>, disk: string, s: Slot): Option<Row> {
    First(rows, HasNumber(disk, s))
  }

  /** Does the slot's name, rather than its number, identify it on this disk? */
  predicate Named(y: System, disk: string)
    requires y.rows.Some?
  {
    y.board == Grub || HasPartlabel(y.rows.value, disk)
  }

  function PartitionFor(y: System, s: Slot): Option<string> {
    match RootRow(y)
    case None => LinkTarget(y, s)
    case Some(root) =>
      if root.pkname == "" then LinkTarget(y, s)
      else if Named(y, root.pkname) then
        match ByLabel(y.rows.value, root.pkname, s)
        case Some(r) => Some(r.path)
        case None => LinkTarget(y, s)
      else
        match ByNumber(y.rows.value, root.pkname, s)
        case Some(r) => Some(r.path)
        case None => None
  }

  function OwnSlot(y: System, r: Row): Option<Slot>
    requires y.rows.Some?
  {
    if Named(y, r.pkname) then
      if EffectiveLabel(r) == Label(SlotA) then Some(SlotA)
      else if EffectiveLabel(r) == Label(SlotB) then Some(SlotB) else None
    else if PartNum(r) == Some(MbrNumber(SlotA)) then Some(SlotA)
    else if PartNum(r) == Some(MbrNumber(SlotB)) then Some(SlotB) else None
  }

  predicate Resolves(y: System, s: Slot, root: string) {
    var dev := PartitionFor(y, s);
    dev.Some? && y.canon(dev.value) == y.canon(root)
  }

  function CurrentSlot(y: System): Option<Slot> {
    if y.root.None? then None
    else
      var own := if RootRow(y).Some? then OwnSlot(y, RootRow(y).value) else None;
      if own.Some? then own
      else if Resolves(y, SlotA, y.root.value) then Some(SlotA)
      else if Resolves(y, SlotB, y.root.value) then Some(SlotB)
      else None
  }

  // ---- the searches, as the program runs them ----

  method FindRow(rows: seq<Row>, p: Row -> bool) returns (r: Option<Row>)
    ensures r == First(rows, p)
  {
    for i := 0 to |rows|
      invariant First(rows, p) == First(rows[i..], p)
    {
      assert rows[i..][0] == rows[i] && rows[i..][1..] == rows[i + 1..];
      if p(rows[i]) { return Some(rows[i]); }
    }
    assert rows[|rows|..] == [];
    return None;
  }

  method BootDiskHasPartlabel(rows: seq<Row>, disk: string) returns (has: bool)
    ensures has == HasPartlabel(rows, disk)
  {
    for i := 0 to |rows|
      invariant forall j :: 0 <= j < i ==> !(rows[j].pkname == disk && rows[j].partlabel != "")
    {
      if rows[i].pkname == disk && rows[i].partlabel != "" {
        assert rows[i] in rows;
        return true;
      }
    }
    return false;
  }

  method ResolvePartition(y: System, s: Slot) returns (dev: Option<string>)
    ensures dev == PartitionFor(y, s)
  {
    if y.rows.Some? && (y.root.Some? || y.board == Grub) {
      var rootPath := y.canon(if y.root.Some? then y.root.value else "");
      var root := FindRow(y.rows.value, IsDevice(y, rootPath));
      if root.Some? && root.value.pkname != "" {
        var disk := root.value.pkname;
        var named := y.board == Grub;
        if !named { named := BootDiskHasPartlabel(y.rows.value, disk); }
        if named {
          var hit := FindRow(y.rows.value, HasLabel(disk, s));
          if hit.Some? { return Some(hit.value.path); }
        } else {
          var hit := FindRow(y.rows.value, HasNumber(disk, s));
          return if hit.Some? then Some(hit.value.path) else None;
        }
      }
    }
    return LinkTarget(y, s);
  }

  method ResolveCurrentSlot(y: System) returns (s: Option<Slot>)
    ensures s == CurrentSlot(y)
  {
    if y.root.None? { return None; }
    var rootPath := y.canon(y.root.value);
    if y.rows.Some? {
      var root := FindRow(y.rows.value, IsDevice(y, rootPath));
      if root.Some? {
        var named := y.board == Grub;
        if !named { named := BootDiskHasPartlabel(y.rows.value, root.value.pkname); }
        if named {
          if EffectiveLabel(root.value) == Label(SlotA) { return Some(SlotA); }
          if EffectiveLabel(root.value) == Label(SlotB) { return Some(SlotB); }
        } else {
          var n := PartNum(root.value);
          if n == Some(MbrNumber(SlotA)) { return Some(SlotA); }
          if n == Some(MbrNumber(SlotB)) { return Some(SlotB); }
        }
      }
    }
    var dev := ResolvePartition(y, SlotA);
    if dev.Some? && y.canon(dev.value) == rootPath { return Some(SlotA); }
    dev := ResolvePartition(y, SlotB);
    if dev.Some? && y.canon(dev.value) == rootPath { return Some(SlotB); }
    return None;
  }

  // ---- the boot disk alone decides ----

  function OnDisk(rows: seq<Row>, disk: string): seq<Row> {
    Select(rows, InDisk(disk))
  }

  /** The running root is listed, on this disk, and no row of another disk is the root's device. */
  predicate BootedFrom(y: System, disk: string) {
    disk != "" && y.root.Some? && RootRow(y).Some? && RootRow(y).value.pkname == disk
    && forall r :: r in y.rows.value && y.canon(r.path) == y.canon(y.root.value) ==> r.pkname == disk
  }

  lemma SearchOnDisk(rows: seq<Row>, disk: string, p: Row -> bool)
    requires forall r :: r in rows && p(r) ==> r.pkname == disk
    ensures First(rows, p) == First(OnDisk(rows, disk), p)
  {
    FirstInSelect(rows, p, InDisk(disk));
  }

  lemma PartlabelOnDisk(rows: seq<Row>, disk: string)
    ensures HasPartlabel(rows, disk) == HasPartlabel(OnDisk(rows, disk), disk)
  {
    forall r: Row
      ensures r in OnDisk(rows, disk) <==> r in rows && r.pkname == disk
    {
      SelectMember(rows, InDisk(disk), r);
    }
  }

  /** Replacing the whole list by the rows of the boot disk changes no answer. */
  lemma ScopedScanAgrees(y: System, disk: string, s: Slot)
    requires BootedFrom(y, disk)
    ensures var z := y.(rows := Some(OnDisk(y.rows.value, disk)));
            RootRow(z) == RootRow(y) && PartitionFor(z, s) == PartitionFor(y, s)
  {
    var root := y.canon(y.root.value);
    SearchOnDisk(y.rows.value, disk, IsDevice(y, root));
    SearchOnDisk(y.rows.value, disk, HasLabel(disk, s));
    SearchOnDisk(y.rows.value, disk, HasNumber(disk, s));
    PartlabelOnDisk(y.rows.value, disk);
  }

  lemma ScopedCurrentSlotAgrees(y: System, disk: string)
    requires BootedFrom(y, disk)
    ensures CurrentSlot(y.(rows := Some(OnDisk(y.rows.value, disk)))) == CurrentSlot(y)
  {
    ScopedScanAgrees(y, disk, SlotA);
    ScopedScanAgrees(y, disk, SlotB);
    PartlabelOnDisk(y.rows.value, disk);
  }

  /**
   Slot resolution is a function of the boot disk: two partition lists with the
   same rows for it, whatever other disks carry, give the same slots.
   */
  lemma OtherDisksDoNotMatter(y: System, rows: seq<Row>, disk: string, s: Slot)
    requires BootedFrom(y, disk) && BootedFrom(y.(rows := Some(rows)), disk)
    requires OnDisk(y.rows.value, disk) == OnDisk(rows, disk)
    ensures PartitionFor(y.(rows := Some(rows)), s) == PartitionFor(y, s)
    ensures CurrentSlot(y.(rows := Some(rows))) == CurrentSlot(y)
  {
    var z := y.(rows := Some(rows));
    ScopedScanAgrees(y, disk, s);
    ScopedScanAgrees(z, disk, s);
    ScopedCurrentSlotAgrees(y, disk);
    ScopedCurrentSlotAgrees(z, disk);
  }

  // ---- MBR: filesystem labels are not identities ----

  predicate SameButLabels(a: seq<Row>, b: seq<Row>) {
    |a| == |b| && forall i :: 0 <= i < |a| ==> b[i] == a[i].(fslabel := b[i].fslabel)
  }

  /** The result of a search that ignores labels, up to labels. */
  lemma {:induction false} LabelBlindSearch(a: seq<Row>, b: seq<Row>, p: Row -> bool)
    requires SameButLabels(a, b)
    requires forall r: Row, l: string :: p(r.(fslabel := l)) == p(r)
    ensures First(a, p).Some? == First(b, p).Some?
    ensures First(a, p).Some? ==> First(b, p).value == First(a, p).value.(fslabel := First(b, p).value.fslabel)
  {
    if a != [] {
      assert b[0] == a[0].(fslabel := b[0].fslabel);
      assert p(a[0].(fslabel := b[0].fslabel)) == p(a[0]);
      LabelBlindSearch(a[1..], b[1..], p);
    }
  }

  lemma LabelBlindPartlabel(a: seq<Row>, b: seq<Row>, disk: string)
    requires SameButLabels(a, b)
    ensures HasPartlabel(a, disk) == HasPartlabel(b, disk)
  {
    if r :| r in a && r.pkname == disk && r.partlabel != "" {
      var i :| 0 <= i < |a| && a[i] == r;
      assert b[i] in b;
    }
    if r :| r in b && r.pkname == disk && r.partlabel != "" {
      var i :| 0 <= i < |b| && b[i] == r;
      assert a[i] in a;
    }
  }

  /** On a U-Boot board whose boot disk has no partlabels, no relabelling of filesystems changes an answer. */
  lemma MbrIgnoresLabels(y: System, rows: seq<Row>, disk: string, s: Slot)
    requires y.board == UBoot && y.rows.Some? && SameButLabels(y.rows.value, rows)
    requires RootRow(y).Some? && RootRow(y).value.pkname == disk != "" && !HasPartlabel(y.rows.value, disk)
    ensures PartitionFor(y.(rows := Some(rows)), s) == PartitionFor(y, s)
    ensures CurrentSlot(y.(rows := Some(rows))) == CurrentSlot(y)
  {
    var z := y.(rows := Some(rows));
    var root := y.canon(y.root.value);
    LabelBlindSearch(y.rows.value, rows, IsDevice(y, root));
    LabelBlindPartlabel(y.rows.value, rows, disk);
    forall t: Slot
      ensures PartitionFor(z, t) == PartitionFor(y, t)
    {
      LabelBlindSearch(y.rows.value, rows, HasNumber(disk, t));
    }
    assert PartitionFor(z, SlotA) == PartitionFor(y, SlotA) && PartitionFor(z, SlotB) == PartitionFor(y, SlotB);
  }

  // ---- GPT: a missing name leaves the boot disk ----

  /** With names, the answer comes from the boot disk if and only if it carries the slot's name. */
  lemma NamedAnswerIffNamePresent(y: System, disk: string, s: Slot)
    requires BootedFrom(y, disk) && Named(y, disk)
    ensures (forall links :: PartitionFor(y.(links := links), s) == PartitionFor(y, s))
            <==> exists r :: r in y.rows.value && r.pkname == disk && EffectiveLabel(r) == Label(s)
  {
    FirstMember(y.rows.value, HasLabel(disk, s));
    if ByLabel(y.rows.value, disk, s).None? {
      var key := "/dev/disk/by-partlabel/" + Label(s);
      var none, some := map[], map[key := "/dev/elsewhere"];
      assert LinkTarget(y.(links := none), s) == None;
      assert LinkTarget(y.(links := some), s) == Some("/dev/elsewhere");
      assert RootRow(y.(links := none)) == RootRow(y) && RootRow(y.(links := some)) == RootRow(y);
      assert PartitionFor(y.(links := none), s) != PartitionFor(y.(links := some), s);
    } else {
      assert forall links :: RootRow(y.(links := links)) == RootRow(y);
    }
  }

  // ---- the inactive slot is never the running root ----

  /** Distinct rows are distinct devices. */
  predicate DistinctDevices(y: System)
    requires y.rows.Some?
  {
    forall a, b :: a in y.rows.value && b in y.rows.value && y.canon(a.path) == y.canon(b.path) ==> a == b
  }

  /** When the running root names its own slot, the partition found for the other slot is another device on the same disk. */
  lemma TargetIsNotTheRunningRoot(y: System, disk: string)
    requires BootedFrom(y, disk) && DistinctDevices(y) && OwnSlot(y, RootRow(y).value).Some?
    ensures CurrentSlot(y) == OwnSlot(y, RootRow(y).value)
    ensures var target := CurrentSlot(y).value.Other();
            var hit := if Named(y, disk) then ByLabel(y.rows.value, disk, target) else ByNumber(y.rows.value, disk, target);
            hit.Some? ==>
              && PartitionFor(y, target) == Some(hit.value.path)
              && hit.value.pkname == disk
              && y.canon(hit.value.path) != y.canon(y.root.value)
  {
    var target := CurrentSlot(y).value.Other();
    var root := y.canon(y.root.value);
    FirstMember(y.rows.value, IsDevice(y, root));
    FirstMember(y.rows.value, HasLabel(disk, target));
    FirstMember(y.rows.value, HasNumber(disk, target));
  }

  // ---- exactly which slot, exactly which partition ----

  /** The slot a GPT or filesystem name stands for. */
  function NamedSlot(name: string): Option<Slot> {
    if name == "rootfsA" then Some(SlotA) else if name == "rootfsB" then Some(SlotB) else None
  }

  /** The slot an MBR partition number stands for. */
  function NumberedSlot(n: Option<int>): Option<Slot> {
    if n == Some(2) then Some(SlotA) else if n == Some(3) then Some(SlotB) else None
  }

  /** What the running root's own row says. */
  function Declared(y: System): Option<Slot> {
    match RootRow(y)
    case None => None
    case Some(r) =>
      if y.board == Grub || exists q :: q in y.rows.value && q.pkname == r.pkname && q.partlabel != ""
      then NamedSlot(if r.partlabel != "" then r.partlabel else r.fslabel)
      else NumberedSlot(PartNum(r))
  }

  /** The current slot is the one the root's own row declares; failing that, the first whose partition is the root. */
  lemma CurrentSlotIff(y: System, s: Slot)
    ensures CurrentSlot(y) == Some(s)
            <==> && y.root.Some?
                 && (Declared(y) == Some(s)
                     || (&& Declared(y).None?
                         && PartitionFor(y, s).Some? && y.canon(PartitionFor(y, s).value) == y.canon(y.root.value)
                         && (s == SlotB ==> !Resolves(y, SlotA, y.root.value))))
  {
  }

  /** A partition of the boot disk that carries the slot's name, or with numbers its number. */
  predicate Belongs(y: System, disk: string, s: Slot, r: Row)
    requires y.rows.Some?
  {
    && r in y.rows.value && r.pkname == disk
    && if Named(y, disk) then NamedSlot(EffectiveLabel(r)) == Some(s) else NumberedSlot(PartNum(r)) == Some(s)
  }

  lemma NamedPartition(y: System, disk: string, s: Slot)
    requires y.rows.Some? && Named(y, disk)
    ensures match ByLabel(y.rows.value, disk, s)
            case None => forall r :: !Belongs(y, disk, s, r)
            case Some(r) => Belongs(y, disk, s, r)
  {
    FirstMember(y.rows.value, HasLabel(disk, s));
  }

  lemma NumberedPartition(y: System, disk: string, s: Slot)
    requires y.rows.Some? && !Named(y, disk)
    ensures match ByNumber(y.rows.value, disk, s)
            case None => forall r :: !Belongs(y, disk, s, r)
            case Some(r) => Belongs(y, disk, s, r)
  {
    FirstMember(y.rows.value, HasNumber(disk, s));
  }

  /** When one belongs to the slot, such a one is found; when none does, only a board with names looks further. */
  lemma FoundPartitionIsTheSlots(y: System, disk: string, s: Slot)
    requires BootedFrom(y, disk)
    ensures (exists r :: Belongs(y, disk, s, r)) ==> exists r :: Belongs(y, disk, s, r) && PartitionFor(y, s) == Some(r.path)
    ensures (forall r :: !Belongs(y, disk, s, r)) ==> PartitionFor(y, s) == if Named(y, disk) then LinkTarget(y, s) else None
  {
    if Named(y, disk) {
      NamedPartition(y, disk, s);
    } else {
      NumberedPartition(y, disk, s);
    }
  }

  /** Where the running root is not listed, the udev links answer, GPT names before filesystem labels. */
  lemma UnlistedRootUsesLinks(y: System, s: Slot)
    requires RootRow(y).None?
    ensures var name := if s == SlotA then "rootfsA" else "rootfsB";
            PartitionFor(y, s)
            == if "/dev/disk/by-partlabel/" + name in y.links then Some(y.links["/dev/disk/by-partlabel/" + name])
               else if "/dev/disk/by-label/" + name in y.links then Some(y.links["/dev/disk/by-label/" + name])
               else None
  {
  }

  /** A GPT name hides the filesystem label. */
  lemma LabelRead(r: Row)
    ensures EffectiveLabel(r) == if r.partlabel != "" then r.partlabel else r.fslabel
  {
  }

  /** A number is read off the device path, with or without a p before it. */
  lemma NumberRead(r: Row, n: nat)
    requires r.pkname != ""
    requires r.path == "/dev/" + (r.pkname + ("p" + Itoa(n))) || r.path == "/dev/" + (r.pkname + Itoa(n))
    ensures PartNum(r) == Some(n)
  {
    AtoiOfItoa(n);
    ParseNatString(n);
    var rest := if r.path == "/dev/" + (r.pkname + ("p" + Itoa(n))) then "p" + Itoa(n) else Itoa(n);
    TrimmedOnce("/dev/", r.pkname + rest);
    TrimmedOnce(r.pkname, rest);
    TrimmedOnce("p", Itoa(n));
  }

  lemma TrimmedOnce(prefix: string, s: string)
    ensures TrimPrefix(prefix + s, prefix) == s
  {
  }

  /** The running root's row: the one listed for the mounted device; U-Boot boards need that device to be known. */
  lemma RootRowIff(y: System, r: Row)
    requires y.rows.Some? ==> DistinctDevices(y)
    ensures RootRow(y) == Some(r)
            <==> && y.rows.Some? && r in y.rows.value && (y.root.Some? || y.board == Grub)
                 && y.canon(r.path) == y.canon(if y.root.Some? then y.root.value else "")
  {
    if y.rows.Some? {
      FirstMember(y.rows.value, IsDevice(y, y.canon(if y.root.Some? then y.root.value else "")));
    }
  }
}
