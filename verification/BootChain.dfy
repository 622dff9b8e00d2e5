/**
 The Jetson platform state that decides the next boot: boot-chain variables,
 OsIndications, and the capsule on the EFI system partition. As in `Protocol`,
 each operation is the list of durable states it passes through.
 */
module BootChain {
  import opened Basics
  import opened LittleEndian
  import OsIndications

  type Var = Option<seq<byte>>

  /** Chips on which capsule-on-disk is validated are Thor (t264) and Orin (t234). */
  datatype Soc = Thor | Orin | OtherSoc

  /** A file still under its temporary name; `synced` once fsync returned. */
  datatype Staged = Staged(data: seq<byte>, synced: bool)

  /**
   `capsule` is what the running system sees at the destination on the ESP;
   `afterCut` is everything the firmware may find there if the power goes now,
   because a rename on vfat is durable only after syncfs. `whole` collects the
   complete capsule files that were ever staged.
   */
  datatype Platform = Platform(next: Var, current: Var, status: Var, osi: Var, bootNext: Var,
                               capsule: Option<seq<byte>>, afterCut: set<Option<seq<byte>>>,
                               tmp: Option<Staged>, whole: set<seq<byte>>,
                               attempted: Option<Slot>, versionBefore: Option<string>)

  datatype Outcome = Outcome(effects: seq<Platform>, ok: bool)

  function After(p: Platform, effects: seq<Platform>, k: nat): Platform {
    if k == 0 || effects == [] then p
    else if k >= |effects| then effects[|effects| - 1]
    else effects[k - 1]
  }

  function Final(p: Platform, effects: seq<Platform>): Platform {
    After(p, effects, |effects|)
  }

  // ---- variables ----

  datatype Reading = Unreadable | Missing | Number(value: nat)

  /** readBootChainVariable: attributes plus a 32-bit value, anything else is an error. */
  function ReadVar(v: Var, efiOk: bool): Reading {
    if !efiOk then Unreadable
    else if v.None? then Missing
    else if |v.value| != 8 then Unreadable
    else Number(FromLE(v.value[4..]))
  }

  /** What nvbootctrl set-active-boot-slot writes to BootChainFwNext. */
  function Request(s: Slot): seq<byte> {
    [7, 0, 0, 0, s.Number(), 0, 0, 0]
  }

  // ---- the firmware (assumed) ----

  function ChainSlot(v: Var): Option<Slot> {
    match ReadVar(v, true)
    case Number(0) => Some(SlotA)
    case Number(1) => Some(SlotB)
    case _ => None
  }

  /**
   The chain the firmware boots next: a request wins and cancels a capsule,
   else an armed capsule flips the current chain, else the current chain.
   None when the rule does not say: unintelligible variables, or an armed bit
   without a complete capsule.
   */
  function NextChain(p: Platform): Option<Slot> {
    if p.next.Some? then ChainSlot(p.next)
    else if ChainSlot(p.current).None? then None
    else if !OsIndications.Armed(p.osi) then ChainSlot(p.current)
    else if WholeAfterCut(p) then Some(ChainSlot(p.current).value.Other())
    else None
  }

  predicate WholeAfterCut(p: Platform) {
    p.afterCut != {} && forall c :: c in p.afterCut ==> c.Some? && c.value in p.whole
  }

  // ---- staging ----

  datatype CopyInput = CopyInput(readOk: bool, createOk: bool, written: nat, syncOk: bool, closeOk: bool,
                                 renameOk: bool, syncfsOk: bool)

  /** What a temporary file may hold after a cut: all of it once synced, otherwise any prefix. */
  function Surviving(t: Staged): set<Option<seq<byte>>> {
    if t.synced then {Some(t.data)} else set k | 0 <= k <= |t.data| :: Some(t.data[..k])
  }

  function Renamed(p: Platform): Platform
    requires p.tmp.Some?
  {
    p.(capsule := Some(p.tmp.value.data), afterCut := p.afterCut + Surviving(p.tmp.value), tmp := None)
  }

  function Synced(p: Platform): Platform {
    p.(afterCut := {p.capsule})
  }

  /** copyFileSync: temporary file, fsync, rename, syncfs; a failure removes the temporary file. */
  function CopyRun(p: Platform, data: seq<byte>, x: CopyInput): Outcome {
    if !x.readOk then Outcome([], false) else
    var clean := p.(tmp := None, whole := p.whole + {data});
    if !x.createOk then Outcome([clean], false) else
    var created := clean.(tmp := Some(Staged([], false)));
    var filled := clean.(tmp := Some(Staged(data[..Min(x.written, |data|)], false)));
    if x.written < |data| || !x.syncOk then Outcome([clean, created, filled, clean], false) else
    var synced := clean.(tmp := Some(Staged(data, true)));
    if !x.closeOk || !x.renameOk then Outcome([clean, created, filled, synced, clean], false) else
    var renamed := Renamed(synced);
    if !x.syncfsOk then Outcome([clean, created, filled, synced, renamed], false)
    else Outcome([clean, created, filled, synced, renamed, Synced(renamed)], true)
  }

  // ---- making a slot the next boot ----

  /** How the outside world answers one SwapSlot or AbortPlatformUpdate. */
  datatype Answers = Answers(
    running: Option<Slot>,          // nvbootctrl get-current-slot
    efiOk: bool, osiReadable: bool, removeOk: bool,
    recordOk: bool, nvbootctrlOk: bool,
    partitionOk: bool, mountOk: bool, hasMarker: bool,
    espOk: bool, source: Option<seq<byte>>, version: Option<string>, saveVersionOk: bool,
    espMountOk: bool, copy: CopyInput, osiWriteOk: bool, readBackOk: bool,
    forgetOk: bool)

  datatype Keep = Kept | NotKept | KeepFailed

  /** keepRunningSlot: may the request be withdrawn instead of replaced? */
  function KeepVerdict(p: Platform, s: Slot, soc: Soc, x: Answers): Keep {
    if soc == OtherSoc then NotKept
    else if x.running.None? then KeepFailed
    else if x.running.value != s then NotKept
    else if ReadVar(p.current, x.efiOk) != Number(s.Number()) then KeepFailed
    else if ReadVar(p.status, x.efiOk) == Unreadable || ReadVar(p.status, x.efiOk) == Number(1) then KeepFailed
    else if !x.osiReadable || OsIndications.Armed(p.osi) then KeepFailed
    else if !x.removeOk then KeepFailed
    else Kept
  }

  function Repoint(p: Platform, s: Slot, x: Answers): Outcome {
    if !x.recordOk then Outcome([], false) else
    var recorded := p.(attempted := Some(s));
    if !x.nvbootctrlOk then Outcome([recorded], false)
    else Outcome([recorded, recorded.(next := Some(Request(s)))], true)
  }

  /** checkCapsuleBootChainIdle. */
  predicate Idle(p: Platform, efiOk: bool) {
    efiOk && p.next.None? && p.status.None? && p.bootNext.None?
  }

  function Arm(p: Platform, s: Slot, x: Answers): Outcome {
    if !x.recordOk then Outcome([], false) else
    var recorded := p.(attempted := Some(s));
    if !x.osiWriteOk then Outcome([recorded], false)
    else Outcome([recorded, recorded.(osi := OsIndications.AfterSet(p.osi))], x.readBackOk)
  }

  function Stage(p: Platform, s: Slot, x: Answers): Outcome {
    if !Idle(p, x.efiOk) || !x.espOk || x.source.None? then Outcome([], false)
    else if x.version.Some? && !x.saveVersionOk then Outcome([], false)
    else
      var saved := p.(versionBefore := x.version);
      if !x.espMountOk then Outcome([saved], false) else
      var copied := CopyRun(saved, x.source.value, x.copy);
      if !copied.ok then Outcome([saved] + copied.effects, false) else
      var armed := Arm(Final(saved, copied.effects), s, x);
      Outcome([saved] + copied.effects + armed.effects, armed.ok)
  }

  /** SwapSlot: keep, re-point, rootfs-only switch, or capsule. */
  function SwapRun(p: Platform, s: Slot, stage: bool, soc: Soc, x: Answers): Outcome {
    if !stage then
      if KeepVerdict(p, s, soc, x) == Kept
      then Outcome(if p.next.Some? then [p.(next := None)] else [], true)
      else Repoint(p, s, x)
    else if !x.partitionOk || !x.mountOk then Outcome([], false)
    else if TakesCapsulePath(soc, x) then Stage(p, s, x)
    else Repoint(p, s, x)
  }

  predicate TakesCapsulePath(soc: Soc, x: Answers) {
    x.hasMarker && soc != OtherSoc
  }

  /** AbortPlatformUpdate: disarm first; removing the file afterwards is best effort. */
  function AbortRun(p: Platform, x: Answers): Outcome {
    if !x.osiReadable || (OsIndications.Armed(p.osi) && !x.osiWriteOk) then Outcome([], false) else
    var disarmed := p.(osi := OsIndications.AfterClear(p.osi));
    var forgotten := if x.forgetOk then disarmed.(versionBefore := None) else disarmed;
    Outcome((if OsIndications.Armed(p.osi) then [disarmed] else [])
            + (if x.forgetOk then [forgotten] else [])
            + (if x.espMountOk && x.removeOk && p.capsule.Some?
               then [forgotten.(capsule := None, afterCut := p.afterCut + {None})] else []), true)
  }
}
