/** What the boot-chain and capsule operations promise, at every power-cut point. */
module CapsuleGuarantees {
  import opened Basics
  import opened LittleEndian
  import opened BootChain
  import OsIndications

  // ---- an armed bit always finds a complete capsule ----

  /** The destination is never half-written, and an armed bit implies that a capsule is there. */
  predicate CapsuleSafe(p: Platform) {
    && p.capsule in p.afterCut
    && (forall c :: c in p.afterCut ==> c.None? || c.value in p.whole)
    && (OsIndications.Armed(p.osi) ==> forall c :: c in p.afterCut ==> c.Some?)
  }

  predicate EveryState(effects: seq<Platform>) {
    forall i :: 0 <= i < |effects| ==> CapsuleSafe(effects[i])
  }

  lemma CopyKeeps(p: Platform, data: seq<byte>, x: CopyInput)
    requires CapsuleSafe(p)
    ensures EveryState(CopyRun(p, data, x).effects)
    ensures var f := Final(p, CopyRun(p, data, x).effects);
            && CapsuleSafe(f) && f.osi == p.osi && f.next == p.next && f.current == p.current
            && f.status == p.status && f.bootNext == p.bootNext
            && (CopyRun(p, data, x).ok ==> f.afterCut == {Some(data)} && data in f.whole)
  {
  }

  lemma ArmKeeps(p: Platform, s: Slot, x: Answers)
    requires CapsuleSafe(p) && (forall c :: c in p.afterCut ==> c.Some?)
    ensures EveryState(Arm(p, s, x).effects)
  {
  }

  lemma StageKeeps(p: Platform, s: Slot, x: Answers)
    requires CapsuleSafe(p)
    ensures EveryState(Stage(p, s, x).effects)
  {
    if x.source.Some? {
      var saved := p.(versionBefore := x.version);
      assert CapsuleSafe(saved);
      CopyKeeps(saved, x.source.value, x.copy);
      var copied := CopyRun(saved, x.source.value, x.copy);
      if copied.ok {
        ArmKeeps(Final(saved, copied.effects), s, x);
      }
    }
  }

  lemma SwapKeeps(p: Platform, s: Slot, stage: bool, soc: Soc, x: Answers)
    requires CapsuleSafe(p)
    ensures EveryState(SwapRun(p, s, stage, soc, x).effects)
  {
    StageKeeps(p, s, x);
  }

  /** Disarming comes first, so removing the file can never strand an armed bit. */
  lemma AbortKeeps(p: Platform, x: Answers)
    requires CapsuleSafe(p)
    ensures EveryState(AbortRun(p, x).effects)
  {
    OsIndications.ClearDisarms(p.osi);
  }

  datatype Event =
    | Swap(s: Slot, stage: bool, x: Answers, cut: nat)
    | Abort(x: Answers, cut: nat)
    // The firmware finds `found` on the ESP and leaves these variables and that file behind.
    | Boot(found: Option<seq<byte>>, left: Option<seq<byte>>, next: Var, current: Var, status: Var, osi: Var)

  function Step(p: Platform, soc: Soc, e: Event): Platform {
    match e
    case Swap(s, stage, x, cut) => After(p, SwapRun(p, s, stage, soc, x).effects, cut)
    case Abort(x, cut) => After(p, AbortRun(p, x).effects, cut)
    case Boot(found, left, next, current, status, osi) =>
      p.(next := next, current := current, status := status, osi := osi,
         capsule := left, afterCut := {left}, tmp := None)
  }

  /** The firmware finds something a cut may leave; it arms nothing, and removes a capsule only with its bit. */
  predicate Legal(p: Platform, e: Event) {
    e.Boot? ==>
      && e.found in p.afterCut
      && (e.left == e.found || e.left.None?)
      && (OsIndications.Armed(e.osi) ==> OsIndications.Armed(p.osi) && e.left == e.found)
  }

  function Exec(p: Platform, soc: Soc, run: seq<Event>): Platform
    decreases run
  {
    if run == [] then p else Exec(Step(p, soc, run[0]), soc, run[1..])
  }

  predicate LegalRun(p: Platform, soc: Soc, run: seq<Event>)
    decreases run
  {
    run == [] || (Legal(p, run[0]) && LegalRun(Step(p, soc, run[0]), soc, run[1..]))
  }

  /** Over every run of swaps, aborts, cuts and boots the capsule is safe. */
  lemma {:induction false} EveryRunKeepsCapsuleSafe(p: Platform, soc: Soc, run: seq<Event>)
    requires CapsuleSafe(p) && LegalRun(p, soc, run)
    ensures CapsuleSafe(Exec(p, soc, run))
    decreases run
  {
    if run != [] {
      match run[0] {
        case Swap(s, stage, x, _) => SwapKeeps(p, s, stage, soc, x);
        case Abort(x, _) => AbortKeeps(p, x);
        case Boot(_, _, _, _, _, _) =>
      }
      EveryRunKeepsCapsuleSafe(Step(p, soc, run[0]), soc, run[1..]);
    }
  }

  // ---- swap makes the slot the next boot ----

  lemma RequestChain(s: Slot)
    ensures ChainSlot(Some(Request(s))) == Some(s)
  {
    assert Request(s)[4..] == [s.Number(), 0, 0, 0];
    assert FromLE([s.Number(), 0, 0, 0]) == s.Number() by {
      assert [s.Number(), 0, 0, 0] == [s.Number()] + seq(3, _ => 0);
      FromLEZeros([s.Number()], 3);
      assert FromLE([s.Number()]) == s.Number() + 256 * FromLE([]);
    }
  }

  /** The capsule path ends armed, complete, and without a boot-chain request beside it. */
  lemma StagedCapsule(p: Platform, s: Slot, x: Answers)
    requires CapsuleSafe(p) && Stage(p, s, x).ok
    ensures var f := Final(p, Stage(p, s, x).effects);
            && OsIndications.Armed(f.osi) && WholeAfterCut(f) && f.afterCut == {x.source}
            && f.next.None? && f.current == p.current && f.osi == OsIndications.AfterSet(p.osi)
            && f.status.None? && f.bootNext.None?
  {
    var saved := p.(versionBefore := x.version);
    assert CapsuleSafe(saved);
    CopyKeeps(saved, x.source.value, x.copy);
    OsIndications.SetArms(p.osi);
    var copied := CopyRun(saved, x.source.value, x.copy);
    var armed := Arm(Final(saved, copied.effects), s, x).effects;
    assert Final(p, Stage(p, s, x).effects) == armed[|armed| - 1];
  }

  /**
   A successful SwapSlot(s) makes s the chain the firmware boots next, by
   whichever of the four ways; only the capsule way depends on a condition, that
   the firmware booted the chain of the other slot.
   */
  lemma SwapMakesSlotNext(p: Platform, s: Slot, stage: bool, soc: Soc, x: Answers)
    requires CapsuleSafe(p) && SwapRun(p, s, stage, soc, x).ok
    ensures NextChain(Final(p, SwapRun(p, s, stage, soc, x).effects)) == Some(s)
            <==> (stage && x.hasMarker && soc in {Thor, Orin} ==> ChainSlot(p.current) == Some(s.Other()))
  {
    RequestChain(s);
    if stage && TakesCapsulePath(soc, x) {
      StagedCapsule(p, s, x);
    }
  }

  /**
   Which way a successful install swap goes: on Thor and Orin an image with the
   marker is staged as a capsule, together with the version to compare with
   later; everything else is re-pointed and nothing is staged.
   */
  lemma InstallSwapArmsIffMarkedAndValidated(p: Platform, s: Slot, soc: Soc, x: Answers)
    requires CapsuleSafe(p) && !OsIndications.Armed(p.osi) && SwapRun(p, s, true, soc, x).ok
    ensures var f := Final(p, SwapRun(p, s, true, soc, x).effects);
            && (OsIndications.Armed(f.osi) <==> x.hasMarker && soc in {Thor, Orin})
            && (OsIndications.Armed(f.osi) ==>
                  && f.next.None? && x.source.Some? && f.afterCut == {x.source}
                  && f.capsule == x.source && f.versionBefore == x.version && f.attempted == Some(s))
            && (!OsIndications.Armed(f.osi) ==> f == p.(attempted := Some(s), next := Some(Request(s))))
  {
    if x.hasMarker && soc != OtherSoc {
      StagedCapsule(p, s, x);
      StagedRecords(p, s, x);
    }
  }

  lemma StagedRecords(p: Platform, s: Slot, x: Answers)
    requires Stage(p, s, x).ok
    ensures var f := Final(p, Stage(p, s, x).effects);
            f.capsule == x.source && f.versionBefore == x.version && f.attempted == Some(s)
  {
    var saved := p.(versionBefore := x.version);
    var copied := CopyRun(saved, x.source.value, x.copy);
    CopySucceedsIff(saved, x.source.value, x.copy);
    var armed := Arm(Final(saved, copied.effects), s, x).effects;
    assert Final(p, Stage(p, s, x).effects) == armed[|armed| - 1];
  }

  // ---- when the operations succeed ----

  /** The copy gets as far as the rename. */
  predicate CopyArrives(data: seq<byte>, x: CopyInput) {
    x.readOk && x.createOk && x.written >= |data| && x.syncOk && x.closeOk && x.renameOk
  }

  predicate CopyWorks(data: seq<byte>, x: CopyInput) {
    CopyArrives(data, x) && x.syncfsOk
  }

  lemma CopySucceedsIff(p: Platform, data: seq<byte>, x: CopyInput)
    ensures var r := CopyRun(p, data, x);
            && (r.ok <==> CopyWorks(data, x))
            && (r.ok ==> Final(p, r.effects) == p.(capsule := Some(data), afterCut := {Some(data)}, tmp := None,
                                                   whole := p.whole + {data}))
            && (x.readOk ==> Final(p, r.effects).tmp.None?)
            && (!CopyArrives(data, x) ==>
                  Final(p, r.effects).capsule == p.capsule && Final(p, r.effects).afterCut == p.afterCut)
  {
  }

  /** Everything a capsule needs: boot control idle, an ESP and a capsule to stage, and every write on the way. */
  predicate CanStage(p: Platform, x: Answers) {
    && x.efiOk && p.next.None? && p.status.None? && p.bootNext.None?
    && x.espOk && x.source.Some? && (x.version.Some? ==> x.saveVersionOk) && x.espMountOk
    && CopyWorks(x.source.value, x.copy)
    && x.recordOk && x.osiWriteOk && x.readBackOk
  }

  lemma InstallSwapSucceedsIff(p: Platform, s: Slot, soc: Soc, x: Answers)
    ensures SwapRun(p, s, true, soc, x).ok
            <==> && x.partitionOk && x.mountOk
                 && if x.hasMarker && soc in {Thor, Orin} then CanStage(p, x) else x.recordOk && x.nvbootctrlOk
  {
    if x.source.Some? {
      CopySucceedsIff(p.(versionBefore := x.version), x.source.value, x.copy);
    }
  }

  lemma RollbackSwapSucceedsIff(p: Platform, s: Slot, soc: Soc, x: Answers)
    ensures SwapRun(p, s, false, soc, x).ok
            <==> (Withdrawable(p, s, soc, x) && x.osiReadable && !OsIndications.Armed(p.osi)) || (x.recordOk && x.nvbootctrlOk)
  {
  }

  /** Aborting succeeds exactly when the bit is clear in the end; what it could not clean up stays behind harmless. */
  lemma AbortOutcome(p: Platform, x: Answers)
    ensures var r := AbortRun(p, x);
            var f := Final(p, r.effects);
            && (r.ok <==> x.osiReadable && (OsIndications.Armed(p.osi) ==> x.osiWriteOk))
            && (r.ok ==>
                  && !OsIndications.Armed(f.osi)
                  && OsIndications.OtherBitsAgree(OsIndications.Value(f.osi), OsIndications.Value(p.osi))
                  && f.versionBefore == (if x.forgetOk then None else p.versionBefore)
                  && f.capsule == (if x.espMountOk && x.removeOk then None else p.capsule)
                  && f.next == p.next && f.current == p.current && f.status == p.status)
            && (!r.ok ==> r.effects == [])
  {
    OsIndications.ClearDisarms(p.osi);
  }

  /** A witness for the condition: chain B booted under slot A, and a capsule meant for slot B boots chain A. */
  lemma UncoupledChainMissesTheSlot(p: Platform, x: Answers)
    requires CapsuleSafe(p) && p.current == Some(Request(SlotB))
    requires x.hasMarker && SwapRun(p, SlotB, true, Thor, x).ok
    ensures NextChain(Final(p, SwapRun(p, SlotB, true, Thor, x).effects)) == Some(SlotA)
  {
    RequestChain(SlotB);
    StagedCapsule(p, SlotB, x);
  }

  /** Withdrawing a request happens only where the firmware would boot the running slot anyway. */
  lemma KeepingIsRepointing(p: Platform, s: Slot, soc: Soc, x: Answers)
    requires KeepVerdict(p, s, soc, x) == Kept
    ensures NextChain(p.(next := None)) == NextChain(p.(next := Some(Request(s)))) == Some(s)
  {
    RequestChain(s);
  }

  // ---- install, then rollback before the reboot ----

  /** Boot control at rest, on the chain of the running slot. */
  predicate AtRest(p: Platform, running: Slot) {
    && Idle(p, true) && !OsIndications.Armed(p.osi)
    && ReadVar(p.current, true) == Number(running.Number())
  }

  /** The pre-reboot rollback of the engine: abort the platform update, then swap back. */
  function RollbackRun(p: Platform, origin: Slot, soc: Soc, x: Answers): Outcome {
    var aborted := AbortRun(p, x);
    if !aborted.ok then aborted else
    var swapped := SwapRun(Final(p, aborted.effects), origin, false, soc, x);
    Outcome(aborted.effects + swapped.effects, swapped.ok)
  }

  /** Between rest and a finished install only these can have changed. */
  predicate Installing(p: Platform, q: Platform, target: Slot) {
    && q.status == p.status && q.current == p.current && q.bootNext == p.bootNext
    && ((q.next == p.next && (q.osi == p.osi || q.osi == OsIndications.AfterSet(p.osi)))
        || (q.next == Some(Request(target)) && q.osi == p.osi))
  }

  lemma CopyFrame(p: Platform, data: seq<byte>, x: CopyInput)
    ensures forall i :: 0 <= i < |CopyRun(p, data, x).effects| ==> SameControl(p, CopyRun(p, data, x).effects[i])
  {
  }

  /** Boot control is untouched. */
  predicate SameControl(p: Platform, q: Platform) {
    q.next == p.next && q.osi == p.osi && q.status == p.status && q.current == p.current && q.bootNext == p.bootNext
  }

  lemma StageFrame(p: Platform, target: Slot, x: Answers)
    ensures forall i :: 0 <= i < |Stage(p, target, x).effects| ==> Installing(p, Stage(p, target, x).effects[i], target)
  {
    if x.source.Some? {
      var saved := p.(versionBefore := x.version);
      CopyFrame(saved, x.source.value, x.copy);
      var copied := CopyRun(saved, x.source.value, x.copy).effects;
      var armed := Arm(Final(saved, copied), target, x).effects;
      assert forall i :: 0 <= i < |copied| ==> Installing(p, copied[i], target);
      assert SameControl(p, Final(saved, copied));
      assert forall i :: 0 <= i < |armed| ==> Installing(p, armed[i], target);
    }
  }

  lemma InstallSwapFrame(p: Platform, target: Slot, soc: Soc, x: Answers)
    ensures forall i :: 0 <= i < |SwapRun(p, target, true, soc, x).effects| ==>
              Installing(p, SwapRun(p, target, true, soc, x).effects[i], target)
  {
    StageFrame(p, target, x);
  }

  lemma AbortRestores(p: Platform, q: Platform, target: Slot, x: Answers)
    requires AtRest(p, target.Other()) && Installing(p, q, target)
    requires x.osiReadable && x.osiWriteOk
    ensures AbortRun(q, x).ok
    ensures var f := Final(q, AbortRun(q, x).effects);
            && f.next == q.next && f.current == p.current && f.status == p.status && f.bootNext == p.bootNext
            && !OsIndications.Armed(f.osi)
            && OsIndications.Value(f.osi) == OsIndications.Value(p.osi)
  {
    OsIndications.ClearDisarms(q.osi);
    OsIndications.SetThenClear(p.osi);
  }

  /**
   On a validated chip: from rest, an install interrupted after any of its
   effects and rolled back before the reboot leaves boot control at rest again,
   with the same OsIndications value, so the next capsule install is not refused.
   */
  lemma InstallThenRollbackIsIdle(p: Platform, target: Slot, soc: Soc, x: Answers, k: nat, y: Answers)
    requires soc != OtherSoc && AtRest(p, target.Other())
    requires y.running == Some(target.Other()) && y.efiOk && y.osiReadable && y.osiWriteOk && y.removeOk
    ensures var q := After(p, SwapRun(p, target, true, soc, x).effects, k);
            var r := RollbackRun(q, target.Other(), soc, y);
            var f := Final(q, r.effects);
            && r.ok && AtRest(f, target.Other())
            && NextChain(f) == Some(target.Other())
            && OsIndications.Value(f.osi) == OsIndications.Value(p.osi)
  {
    InstallSwapFrame(p, target, soc, x);
    var q := After(p, SwapRun(p, target, true, soc, x).effects, k);
    AbortRestores(p, q, target, y);
    var aborted := AbortRun(q, y).effects;
    var g := Final(q, aborted);
    var swapped := SwapRun(g, target.Other(), false, soc, y).effects;
    assert KeepVerdict(g, target.Other(), soc, y) == Kept;
    FinalOfConcat(q, aborted, swapped);
    assert Final(g, swapped) == g.(next := None);
  }

  lemma FinalOfConcat(p: Platform, a: seq<Platform>, b: seq<Platform>)
    ensures Final(p, a + b) == Final(Final(p, a), b)
  {
    assert b == [] ==> a + b == a;
  }

  // ---- which rollback swaps leave a request behind ----

  /** What has to hold of the booted system for its own slot to come back without a request. */
  predicate Withdrawable(p: Platform, s: Slot, soc: Soc, x: Answers) {
    && soc != OtherSoc && x.running == Some(s) && x.efiOk && x.removeOk
    && ReadVar(p.current, true) == Number(s.Number())
    && ReadVar(p.status, true) != Unreadable && ReadVar(p.status, true) != Number(1)
  }

  /**
   A rollback swap to s that succeeds leaves no boot-chain request exactly when
   s runs, on a validated chip, on its own chain, with no switch being judged,
   no capsule armed and a removal that works; otherwise it leaves one for s.
   */
  lemma RequestLeftIffNotWithdrawable(p: Platform, s: Slot, soc: Soc, x: Answers)
    requires SwapRun(p, s, false, soc, x).ok
    ensures var f := Final(p, SwapRun(p, s, false, soc, x).effects);
            && (f.next.None? <==> Withdrawable(p, s, soc, x) && x.osiReadable && !OsIndications.Armed(p.osi))
            && f == (if f.next.None? then p.(next := None) else p.(attempted := Some(s), next := Some(Request(s))))
  {
  }

  /** A capsule still armed is enough: even on Thor the running slot keeps a request. */
  lemma ArmedCapsuleLeavesRequest(p: Platform, s: Slot, x: Answers)
    requires x.running == Some(s) && OsIndications.Armed(p.osi) && x.recordOk && x.nvbootctrlOk
    ensures SwapRun(p, s, false, Thor, x).ok
    ensures Final(p, SwapRun(p, s, false, Thor, x).effects).next == Some(Request(s))
  {
  }

  /**
   The engine's pre-reboot rollback disarms first, so for a whole rollback the
   capsule drops out of the condition. Either way the origin boots next.
   */
  lemma RollbackLeavesRequestIffNotWithdrawable(p: Platform, origin: Slot, soc: Soc, x: Answers)
    requires RollbackRun(p, origin, soc, x).ok
    ensures var f := Final(p, RollbackRun(p, origin, soc, x).effects);
            && (f.next.None? <==> Withdrawable(p, origin, soc, x))
            && (f.next.Some? ==> f.next == Some(Request(origin)))
            && !OsIndications.Armed(f.osi)
            && NextChain(f) == Some(origin)
  {
    AbortFrame(p, x);
    var g := Final(p, AbortRun(p, x).effects);
    FinalOfConcat(p, AbortRun(p, x).effects, SwapRun(g, origin, false, soc, x).effects);
    RequestLeftIffNotWithdrawable(g, origin, soc, x);
    SwapBackFrame(g, origin, soc, x);
    RequestChain(origin);
  }

  lemma AbortFrame(p: Platform, x: Answers)
    requires AbortRun(p, x).ok
    ensures var g := Final(p, AbortRun(p, x).effects);
            && g.next == p.next && g.current == p.current && g.status == p.status && !OsIndications.Armed(g.osi)
  {
    OsIndications.ClearDisarms(p.osi);
  }

  lemma SwapBackFrame(p: Platform, s: Slot, soc: Soc, x: Answers)
    ensures var f := Final(p, SwapRun(p, s, false, soc, x).effects);
            f.osi == p.osi && f.current == p.current && f.status == p.status
  {
  }
}
