/**
 Slot to partition resolution on Jetson: by label or, where lsblk reports no
 labels, by adjacent partition number, always on the running root's disk.
 */
module TegraSlots {
  import opened Basics
  import opened Search
  import BootDisk

  /** One lsblk row; deviceId is the kernel's MAJ:MIN. */
  datatype Row = Row(path: string, parent: string, partLabel: string, typ: string, deviceId: string)

  /** The partition inventory and the running root's place in it; no disk when the root has no partition. */
  datatype Layout = NoDisk(rows: seq<Row>) | OnDisk(rows: seq<Row>, root: Row, disk: string)

  function Label(s: Slot): string {
    if s == SlotA then "APP" else "APP_b"
  }

  function DevPath(name: string): string {
    BootDisk.DevPath(name)
  }

  predicate Usable(r: Row) {
    "/dev/" <= r.path && r.deviceId != ""
  }

  // ---- specification ----

  function HasId(id: string): Row -> bool {
    (r: Row) => id != "" && r.deviceId == id
  }

  function IsWholeDisk(disk: string): Row -> bool {
    (r: Row) => r.path == disk && r.typ == "disk"
  }

  function LabelledOn(disk: string, name: string): Row -> bool {
    (r: Row) => DevPath(r.parent) == disk && r.typ == "part" && r.partLabel == name
  }

  function Labelled(name: string): Row -> bool {
    (r: Row) => r.typ == "part" && r.partLabel == name
  }

  function NamedPartOf(disk: string): Row -> bool {
    (r: Row) => DevPath(r.parent) == disk && r.partLabel != ""
  }

  function PartAt(disk: string, path: string): Row -> bool {
    (r: Row) => r.path == path && r.typ == "part" && DevPath(r.parent) == disk
  }

  function Only(found: seq<Row>): Option<Row> {
    if |found| != 1 then None else if Usable(found[0]) then Some(found[0]) else None
  }

  /** rootOnDisk: the one row with the root's identity, and its one physical disk. */
  function RootOnDisk(rows: seq<Row>, rootId: string): Option<Layout> {
    var roots := Select(rows, HasId(rootId));
    if |roots| != 1 || roots[0].typ != "part" || roots[0].parent == "" then None
    else
      var disk := DevPath(roots[0].parent);
      if |Select(rows, IsWholeDisk(disk))| != 1 then None
      else Some(OnDisk(rows, roots[0], disk))
  }

  function LastP(dev: string): Option<nat> {
    if dev == "" then None
    else if dev[|dev| - 1] == 'p' then Some(|dev| - 1)
    else LastP(dev[..|dev| - 1])
  }

  datatype Split = Split(base: string, num: int)

  function SplitPartDev(dev: string): Option<Split> {
    match LastP(dev)
    case None => None
    case Some(i) =>
      if i + 1 >= |dev| then None
      else
        match Atoi(dev[i + 1..])
        case None => None
        case Some(n) => Some(Split(dev[..i], n))
  }

  function ByNumber(l: Layout, current: Slot, s: Slot): Option<Row>
    requires l.OnDisk?
  {
    if s == current then if Usable(l.root) then Some(l.root) else None
    else
      match SplitPartDev(l.root.path)
      case None => None
      case Some(p) =>
        match First(l.rows, PartAt(l.disk, p.base + "p" + Itoa(p.num + s.Number() - current.Number())))
        case None => None
        case Some(r) => if Usable(r) then Some(r) else None
  }

  /** slotPartition; `current` is the firmware's slot, if it can be read. */
  function SlotPartition(l: Layout, current: Option<Slot>, s: Slot): Option<Row> {
    if l.NoDisk? then Only(Select(l.rows, Labelled(Label(s))))
    else if Select(l.rows, NamedPartOf(l.disk)) == [] then
      if current.None? then None else ByNumber(l, current.value, s)
    else if l.root.partLabel != "APP" && l.root.partLabel != "APP_b" then None
    else if current.None? || l.root.partLabel != Label(current.value) then None
    else Only(Select(l.rows, LabelledOn(l.disk, Label(s))))
  }

  // ---- the searches, as the program runs them ----

  method Matching(rows: seq<Row>, p: Row -> bool) returns (found: seq<Row>)
    ensures found == Select(rows, p)
  {
    found := [];
    for i := 0 to |rows|
      invariant found == Select(rows[..i], p)
    {
      assert rows[..i + 1] == rows[..i] + [rows[i]];
      SelectAppend(rows[..i], [rows[i]], p);
      if p(rows[i]) { found := found + [rows[i]]; }
    }
    assert rows[..|rows|] == rows;
  }

  method LocateRoot(rows: seq<Row>, rootId: string) returns (l: Option<Layout>)
    ensures l == RootOnDisk(rows, rootId)
  {
    var roots := Matching(rows, HasId(rootId));
    if |roots| != 1 { return None; }
    var root := roots[0];
    if root.typ != "part" || root.parent == "" { return None; }
    var disk := DevPath(root.parent);
    var disks := Matching(rows, IsWholeDisk(disk));
    if |disks| != 1 { return None; }
    return Some(OnDisk(rows, root, disk));
  }

  method SplitDevice(dev: string) returns (p: Option<Split>)
    ensures p == SplitPartDev(dev)
  {
    var i := |dev|;
    assert dev[..i] == dev;
    while i > 0 && dev[i - 1] != 'p'
      invariant 0 <= i <= |dev|
      invariant LastP(dev) == LastP(dev[..i])
    {
      assert dev[..i][..i - 1] == dev[..i - 1];
      i := i - 1;
    }
    if i > 0 { assert dev[..i][i - 1] == 'p'; }
    if i == 0 || i == |dev| { return None; }
    var n := Atoi(dev[i..]);
    return if n.Some? then Some(Split(dev[..i - 1], n.value)) else None;
  }

  method SlotByNumber(l: Layout, current: Slot, s: Slot) returns (r: Option<Row>)
    requires l.OnDisk?
    ensures r == ByNumber(l, current, s)
  {
    if s == current { return if Usable(l.root) then Some(l.root) else None; }
    var p := SplitDevice(l.root.path);
    if p.None? { return None; }
    var want := p.value.base + "p" + Itoa(p.value.num + s.Number() - current.Number());
    for i := 0 to |l.rows|
      invariant First(l.rows, PartAt(l.disk, want)) == First(l.rows[i..], PartAt(l.disk, want))
    {
      assert l.rows[i..][0] == l.rows[i] && l.rows[i..][1..] == l.rows[i + 1..];
      if PartAt(l.disk, want)(l.rows[i]) { return if Usable(l.rows[i]) then Some(l.rows[i]) else None; }
    }
    assert l.rows[|l.rows|..] == [];
    return None;
  }

  method ResolveSlot(l: Layout, current: Option<Slot>, s: Slot) returns (r: Option<Row>)
    ensures r == SlotPartition(l, current, s)
  {
    if l.NoDisk? {
      var found := Matching(l.rows, Labelled(Label(s)));
      return Only(found);
    }
    var named := Matching(l.rows, NamedPartOf(l.disk));
    if named == [] {
      if current.None? { return None; }
      r := SlotByNumber(l, current.value, s);
      return;
    }
    if l.root.partLabel != "APP" && l.root.partLabel != "APP_b" { return None; }
    if current.None? || l.root.partLabel != Label(current.value) { return None; }
    var found := Matching(l.rows, LabelledOn(l.disk, Label(s)));
    return Only(found);
  }

  // ---- the two slots ----

  lemma {:induction false} LastPSplits(dev: string)
    ensures LastP(dev).Some? ==>
              LastP(dev).value < |dev| && dev[LastP(dev).value] == 'p'
              && dev == dev[..LastP(dev).value] + "p" + dev[LastP(dev).value + 1..]
  {
    if dev != "" && dev[|dev| - 1] != 'p' {
      LastPSplits(dev[..|dev| - 1]);
    }
  }

  /** Another number makes another path, even when the root's own number is spelled oddly. */
  lemma NeighbourIsAnotherPath(dev: string, k: int)
    requires SplitPartDev(dev).Some? && k != 0
    ensures var p := SplitPartDev(dev).value;
            p.base + "p" + Itoa(p.num + k) != dev
  {
    var p := SplitPartDev(dev).value;
    LastPSplits(dev);
    AtoiOfItoa(p.num + k);
    var i := LastP(dev).value;
    var neighbour := p.base + "p" + Itoa(p.num + k);
    assert neighbour[i + 1..] == Itoa(p.num + k);
    assert Atoi(neighbour[i + 1..]) != Atoi(dev[i + 1..]);
  }

  lemma OnlyRowWithItsId(rows: seq<Row>, rootId: string, r: Row)
    requires RootOnDisk(rows, rootId).Some? && r in rows && r != RootOnDisk(rows, rootId).value.root
    ensures r.deviceId != rootId && RootOnDisk(rows, rootId).value.root.deviceId == rootId
    ensures RootOnDisk(rows, rootId).value.root in rows
  {
    var roots := Select(rows, HasId(rootId));
    SelectMember(rows, HasId(rootId), roots[0]);
    if r.deviceId == rootId {
      SelectUnique(rows, HasId(rootId), r);
    }
  }

  lemma RootIsListed(rows: seq<Row>, rootId: string)
    requires RootOnDisk(rows, rootId).Some?
    ensures RootOnDisk(rows, rootId).value.root in rows
  {
    var roots := Select(rows, HasId(rootId));
    SelectMember(rows, HasId(rootId), roots[0]);
  }

  /** With a known disk, the firmware's slot resolves to the running root or not at all. */
  lemma CurrentSlotIsTheRoot(rows: seq<Row>, rootId: string, current: Slot)
    requires RootOnDisk(rows, rootId).Some?
    ensures var l := RootOnDisk(rows, rootId).value;
            SlotPartition(l, Some(current), current).Some? ==> SlotPartition(l, Some(current), current) == Some(l.root)
  {
    var l := RootOnDisk(rows, rootId).value;
    RootIsListed(rows, rootId);
    if Select(l.rows, NamedPartOf(l.disk)) != [] && SlotPartition(l, Some(current), current).Some? {
      SelectUnique(rows, LabelledOn(l.disk, Label(current)), l.root);
    }
  }

  predicate AnotherPartition(l: Layout, r: Row)
    requires l.OnDisk?
  {
    r in l.rows && r.typ == "part" && DevPath(r.parent) == l.disk && r != l.root
  }

  /** The path of the partition after (B) or before (A) the root's, or nowhere. */
  function NeighbourPath(root: Row, s: Slot): Option<string> {
    match SplitPartDev(root.path)
    case None => None
    case Some(p) => Some(p.base + "p" + Itoa(if s == SlotB then p.num + 1 else p.num - 1))
  }

  /** A slot found by number has the neighbour's path, on the root's disk. */
  lemma FoundAtNeighbour(l: Layout, current: Slot)
    requires l.OnDisk? && ByNumber(l, current, current.Other()).Some?
    ensures var r := ByNumber(l, current, current.Other()).value;
            && NeighbourPath(l.root, current.Other()) == Some(r.path)
            && r in l.rows && r.typ == "part" && DevPath(r.parent) == l.disk
  {
    FirstMember(l.rows, PartAt(l.disk, NeighbourPath(l.root, current.Other()).value));
  }

  lemma OtherByNumber(l: Layout, current: Slot)
    requires l.OnDisk?
    ensures var other := ByNumber(l, current, current.Other());
            other.Some? ==> AnotherPartition(l, other.value)
  {
    if ByNumber(l, current, current.Other()).Some? {
      FoundAtNeighbour(l, current);
      NeighbourIsAnotherPath(l.root.path, if current == SlotA then 1 else -1);
    }
  }

  lemma OtherByLabel(l: Layout, current: Slot)
    requires l.OnDisk? && l.root.partLabel == Label(current)
    ensures var other := Only(Select(l.rows, LabelledOn(l.disk, Label(current.Other()))));
            other.Some? ==> AnotherPartition(l, other.value)
  {
    var found := Select(l.rows, LabelledOn(l.disk, Label(current.Other())));
    if |found| == 1 {
      SelectMember(l.rows, LabelledOn(l.disk, Label(current.Other())), found[0]);
    }
  }

  /** And the other slot to a partition of the same disk with another device identity. */
  lemma OtherSlotIsAnotherDevice(rows: seq<Row>, rootId: string, current: Slot)
    requires RootOnDisk(rows, rootId).Some?
    ensures var l := RootOnDisk(rows, rootId).value;
            var other := SlotPartition(l, Some(current), current.Other());
            other.Some? ==>
              && other.value in rows && other.value.typ == "part" && DevPath(other.value.parent) == l.disk
              && other.value.deviceId != l.root.deviceId
  {
    var l := RootOnDisk(rows, rootId).value;
    var other := SlotPartition(l, Some(current), current.Other());
    if other.Some? {
      if Select(l.rows, NamedPartOf(l.disk)) == [] {
        OtherByNumber(l, current);
      } else {
        OtherByLabel(l, current);
      }
      OnlyRowWithItsId(rows, rootId, other.value);
    }
  }

  /** The slots never coincide, by label and by number alike. */
  lemma SlotsNeverCoincide(rows: seq<Row>, rootId: string, current: Slot)
    requires RootOnDisk(rows, rootId).Some?
    ensures var l := RootOnDisk(rows, rootId).value;
            var a, b := SlotPartition(l, Some(current), SlotA), SlotPartition(l, Some(current), SlotB);
            a.Some? && b.Some? ==> a.value.deviceId != b.value.deviceId
  {
    CurrentSlotIsTheRoot(rows, rootId, current);
    OtherSlotIsAnotherDevice(rows, rootId, current);
  }

  // ---- exactly which partition ----

  lemma {:induction false} LastPBeforeDigits(base: string, t: string)
    requires forall i :: 0 <= i < |t| ==> t[i] != 'p'
    ensures LastP(base + "p" + t) == Some(|base|)
    decreases |t|
  {
    var dev := base + "p" + t;
    if t == "" {
      assert dev == base + "p";
    } else {
      assert dev[..|dev| - 1] == base + "p" + t[..|t| - 1];
      LastPBeforeDigits(base, t[..|t| - 1]);
    }
  }

  /** A device path is taken apart the way it is put together. */
  lemma SplitInvertsJoin(base: string, n: int)
    ensures SplitPartDev(base + "p" + Itoa(n)) == Some(Split(base, n))
  {
    var t := Itoa(n);
    ParseNatString(if n < 0 then -n else n);
    LastPBeforeDigits(base, t);
    var dev := base + "p" + t;
    assert dev[|base| + 1..] == t && dev[..|base|] == base;
    AtoiOfItoa(n);
  }

  /** lsblk reports no partition name on the disk. */
  predicate Unlabelled(l: Layout)
    requires l.OnDisk?
  {
    forall r :: r in l.rows && DevPath(r.parent) == l.disk ==> r.partLabel == ""
  }

  lemma {:induction false} EmptySelection(rows: seq<Row>, p: Row -> bool)
    ensures Select(rows, p) == [] <==> forall r :: r in rows ==> !p(r)
  {
    if rows != [] {
      EmptySelection(rows[1..], p);
      assert forall r :: r in rows <==> r == rows[0] || r in rows[1..];
    }
  }

  lemma UnlabelledIff(l: Layout)
    requires l.OnDisk?
    ensures Unlabelled(l) <==> Select(l.rows, NamedPartOf(l.disk)) == []
  {
    EmptySelection(l.rows, NamedPartOf(l.disk));
    if Unlabelled(l) {
      assert forall r :: r in l.rows ==> !NamedPartOf(l.disk)(r);
    } else {
      var r :| r in l.rows && DevPath(r.parent) == l.disk && r.partLabel != "";
      assert NamedPartOf(l.disk)(r);
    }
  }

  /** Without labels: the firmware's slot is the root, and the other the usable partition next to it on the side of its letter. */
  lemma UnlabelledResolvesIff(l: Layout, current: Slot, s: Slot, r: Row)
    requires l.OnDisk? && Unlabelled(l)
    requires forall a, b :: a in l.rows && b in l.rows && a.path == b.path ==> a == b
    ensures SlotPartition(l, Some(current), s) == Some(r)
            <==> && "/dev/" <= r.path && r.deviceId != ""
                 && if s == current then r == l.root
                    else r in l.rows && r.typ == "part" && DevPath(r.parent) == l.disk && NeighbourPath(l.root, s) == Some(r.path)
    ensures SlotPartition(l, None, s) == None
  {
    UnlabelledIff(l);
    if s != current && SplitPartDev(l.root.path).Some? {
      FirstMember(l.rows, PartAt(l.disk, NeighbourPath(l.root, s).value));
    }
  }

  /** `next` is the partition right behind `path` on the same disk, however the numbers are spelled. */
  predicate Follows(path: string, next: string) {
    SplitPartDev(path).Some?
    && SplitPartDev(next) == Some(SplitPartDev(path).value.(num := SplitPartDev(path).value.num + 1))
  }

  lemma NeighbourFollows(root: Row, s: Slot)
    requires NeighbourPath(root, s).Some?
    ensures if s == SlotB then Follows(root.path, NeighbourPath(root, s).value)
            else Follows(NeighbourPath(root, s).value, root.path)
  {
    var p := SplitPartDev(root.path).value;
    SplitInvertsJoin(p.base, if s == SlotB then p.num + 1 else p.num - 1);
  }

  /** So B's partition is the one behind A's, whichever of them runs. */
  lemma SlotBFollowsSlotA(l: Layout, current: Slot, a: Row, b: Row)
    requires l.OnDisk? && Unlabelled(l)
    requires SlotPartition(l, Some(current), SlotA) == Some(a) && SlotPartition(l, Some(current), SlotB) == Some(b)
    ensures Follows(a.path, b.path)
  {
    UnlabelledIff(l);
    assert ByNumber(l, current, SlotA) == Some(a) && ByNumber(l, current, SlotB) == Some(b);
    FoundAtNeighbour(l, current);
    NeighbourFollows(l.root, current.Other());
  }

  /** The only partition of its name among these rows, and usable. */
  predicate OnlyUsable(rows: seq<Row>, p: Row -> bool, r: Row) {
    |Select(rows, p)| == 1 && r in rows && p(r) && "/dev/" <= r.path && r.deviceId != ""
  }

  lemma OnlyIff(rows: seq<Row>, p: Row -> bool, r: Row)
    ensures Only(Select(rows, p)) == Some(r) <==> OnlyUsable(rows, p, r)
  {
    if |Select(rows, p)| == 1 {
      SelectMember(rows, p, Select(rows, p)[0]);
      if r in rows && p(r) {
        SelectUnique(rows, p, r);
      }
    }
  }

  /** With labels: the root must carry the firmware slot's, and the answer is the disk's only partition of the asked slot's. */
  lemma LabelledResolvesIff(l: Layout, current: Slot, s: Slot, r: Row)
    requires l.OnDisk? && !Unlabelled(l)
    ensures SlotPartition(l, Some(current), s) == Some(r)
            <==> && l.root.partLabel == (if current == SlotA then "APP" else "APP_b")
                 && OnlyUsable(l.rows, LabelledOn(l.disk, if s == SlotA then "APP" else "APP_b"), r)
    ensures SlotPartition(l, None, s) == None
  {
    UnlabelledIff(l);
    OnlyIff(l.rows, LabelledOn(l.disk, Label(s)), r);
  }

  /** Without a known disk: the only partition of that name on any disk. */
  lemma NoDiskResolvesIff(l: Layout, current: Option<Slot>, s: Slot, r: Row)
    requires l.NoDisk?
    ensures SlotPartition(l, current, s) == Some(r)
            <==> OnlyUsable(l.rows, Labelled(if s == SlotA then "APP" else "APP_b"), r)
  {
    OnlyIff(l.rows, Labelled(Label(s)), r);
  }

  /** The running root is found exactly when it is the one partition with the identity, on one physical disk. */
  lemma RootFoundIff(rows: seq<Row>, rootId: string, root: Row)
    ensures RootOnDisk(rows, rootId) == Some(OnDisk(rows, root, DevPath(root.parent)))
            <==> && rootId != "" && root in rows && root.deviceId == rootId && |Select(rows, HasId(rootId))| == 1
                 && root.typ == "part" && root.parent != ""
                 && |Select(rows, IsWholeDisk(DevPath(root.parent)))| == 1
  {
    if |Select(rows, HasId(rootId))| == 1 {
      SelectMember(rows, HasId(rootId), Select(rows, HasId(rootId))[0]);
      if rootId != "" && root in rows && root.deviceId == rootId {
        SelectUnique(rows, HasId(rootId), root);
      }
    }
  }

  lemma DeviceNames(name: string)
    ensures DevPath("nvme0n1") == "/dev/nvme0n1" && DevPath("/dev/nvme0n1") == "/dev/nvme0n1" && DevPath("") == ""
    ensures name != "" && name[0] != '/' ==> DevPath(name) == "/dev/" + name
  {
  }
}
