/**
 The update engine: the verbs as the program performs them, call by call.
 Each is proved to produce exactly the durable effects and the result that
 `Protocol` specifies for the answers it got from the outside world.
 */
module Engine {
  import opened Basics
  import opened DurableState
  import opened Storage
  import opened BlockDev
  import opened Protocol
  import TrialConnector

  /** The artifact an install reads, before any of it is checked. */
  datatype Source = Source(artifact: Artifact, size: int, sha256: Digest, compressedSha256: Option<Digest>,
                           bootloaderUpdate: bool, storedDigest: Digest, answers: seq<Read>, drain: nat -> nat)

  /** Which calls outside the engine's own logic succeed during one install; the partition takes `usable` bytes at most. */
  datatype Calls = Calls(loadOk: bool, refused: bool, openOk: bool, usable: nat, syncOk: bool,
                         saveOk: bool, prepareOk: bool, swapOk: bool, saveSwappedOk: bool,
                         postHookOk: bool, unwindSwapOk: bool, unwindClearOk: bool)

  /** VerifyPayloadDigests and the size check before it. */
  predicate Matches(src: Source, written: nat, digest: Digest) {
    && !(src.size > 0 && written != src.size)
    && digest == src.sha256
    && (src.compressedSha256.Some? ==> src.storedDigest == src.compressedSha256.value)
  }

  function PlanOf(src: Source, c: Calls, writes: seq<Image>, writeOk: bool, written: nat, verified: bool): Plan {
    Plan(c.loadOk, c.refused, src.artifact, src.sha256, src.bootloaderUpdate, writes, writeOk, written, verified,
         c.saveOk, c.prepareOk, c.swapOk, c.saveSwappedOk, c.postHookOk, c.unwindSwapOk, c.unwindClearOk)
  }

  /** The target only ever held prefixes of the payload over its old content, and a verified plan is one that deserves it. */
  ghost predicate Honest(src: Source, plan: Plan, before: Image, sha: seq<byte> -> Digest) {
    && PartialWrites(before, Stream(src.answers), plan.writes)
    && (plan.writeOk && plan.verified ==> Verified(src, before, plan.written, plan.writes, sha))
  }

  /** The payload arrived in full, fits, matches the manifest, and sits at the start of the slot. */
  predicate Verified(src: Source, before: Image, written: nat, writes: seq<Image>, sha: seq<byte> -> Digest) {
    var payload := Stream(src.answers);
    && Matches(src, |payload|, sha(payload))
    && written == |payload| <= |before|
    && LastOr(before, writes) == Overlay(before, payload)
  }

  /** The payload is what the manifest says, arrives in full, and fits what the partition takes. */
  predicate Good(src: Source, c: Calls, before: Image, sha: seq<byte> -> Digest) {
    var payload := Stream(src.answers);
    && c.openOk && c.syncOk && Ends(src.answers) && |payload| <= |before| && |payload| <= c.usable
    && (src.size > 0 ==> |payload| == src.size)
    && sha(payload) == src.sha256
    && (src.compressedSha256.Some? ==> src.compressedSha256.value == src.storedDigest)
  }

  class Updater {
    const disk: Disk
    const conn: TrialConnector.Controller
    const sha: seq<byte> -> Digest

    ghost predicate Valid()
      reads disk
    {
      disk.Valid() && conn.disk == disk
    }

    constructor (disk: Disk, running: Slot, sha: seq<byte> -> Digest)
      requires disk.Valid()
      ensures Valid() && this.disk == disk && conn.running == running && this.sha == sha
      ensures fresh(conn)
    {
      this.disk, this.sha := disk, sha;
      this.conn := new TrialConnector.Controller(disk, running);
    }

    /**
     Stream, verify, record, prepare, arm, record again, then the post-install
     hook. `plan` is what the protocol says about this install, and Honest ties
     it to the payload.
     */
    method Install(src: Source, c: Calls) returns (result: InstallResult, ghost plan: Plan)
      requires Valid()
      modifies disk
      ensures Valid()
      ensures disk.trace == old(disk.trace) + InstallRun(old(disk.Now()), conn.running, plan).effects
      ensures result == InstallRun(old(disk.Now()), conn.running, plan).result
      ensures plan == PlanOf(src, c, plan.writes, plan.writeOk, plan.written, plan.verified)
      ensures Honest(src, plan, old(disk.ImageOf(conn.running.Other())), sha)
      ensures result == Installed(conn.running.Other())
              <==> && c.loadOk && old(disk.record).None? && !c.refused
                   && Good(src, c, old(disk.ImageOf(conn.running.Other())), sha)
                   && c.saveOk && c.prepareOk && c.swapOk && c.saveSwappedOk && c.postHookOk
      ensures result.Installed? ==>
                && disk.record == Some(State(Swapped, conn.running.Other(), src.artifact, src.sha256, src.bootloaderUpdate))
                && disk.env == Env(conn.running.Other(), true, 0)
    {
      plan := PlanOf(src, c, [], false, 0, false);
      if !c.loadOk { return InstallLoadError, plan; }
      if disk.record.Some? { return InFlight, plan; }
      if c.refused { return Refused, plan; }
      var failure, written, writes := WriteAndVerify(src, c);
      plan := PlanOf(src, c, writes, failure != Some(WriteError), written, failure.None?);
      if failure.Some? { return failure.value, plan; }
      result := Activate(src, c, plan);
      assert disk.trace == old(disk.trace) + InstallRun(old(disk.Now()), conn.running, plan).effects by {
        Assoc(old(disk.trace), SlotWrites(old(disk.Now()), conn.running.Other(), plan.writes),
              Activation(Final(old(disk.Now()), SlotWrites(old(disk.Now()), conn.running.Other(), plan.writes)),
                         conn.running, plan).effects);
      }
    }

    /** The payload goes onto the inactive slot; then its size and digests are compared. */
    method WriteAndVerify(src: Source, c: Calls)
      returns (failure: Option<InstallResult>, written: nat, ghost writes: seq<Image>)
      requires Valid()
      modifies disk
      ensures Valid()
      ensures failure in {None, Some(WriteError), Some(Rejected)}
      ensures failure.None? <==> Good(src, c, old(disk.ImageOf(conn.running.Other())), sha)
      ensures disk.trace == old(disk.trace) + SlotWrites(old(disk.Now()), conn.running.Other(), writes)
      ensures disk.Now() == Final(old(disk.Now()), SlotWrites(old(disk.Now()), conn.running.Other(), writes))
      ensures PartialWrites(old(disk.ImageOf(conn.running.Other())), Stream(src.answers), writes)
      ensures failure.None? ==> Verified(src, old(disk.ImageOf(conn.running.Other())), written, writes, sha)
    {
      ghost var d := disk.Now();
      var status, count, digest, history := WriteImage(disk, conn.running.Other(), src.answers, src.drain, sha,
                                                       c.openOk, c.usable, c.syncOk);
      written, writes := count, history;
      if status != WriteOk { return Some(WriteError), written, writes; }
      LastWrite(d, conn.running.Other(), writes);
      var matches := CheckPayload(src, written, digest);
      failure := if matches then None else Some(Rejected);
    }

    /** The size comes first, then the digest of the plain bytes, then that of the stored ones. */
    method CheckPayload(src: Source, written: nat, digest: Digest) returns (ok: bool)
      ensures ok == Matches(src, written, digest)
    {
      if src.size > 0 && written != src.size { return false; }
      if digest != src.sha256 { return false; }
      return src.compressedSha256.None? || src.storedDigest == src.compressedSha256.value;
    }

    /** Everything after the payload was verified. */
    method Activate(src: Source, c: Calls, ghost plan: Plan) returns (result: InstallResult)
      requires Valid()
      requires plan == PlanOf(src, c, plan.writes, plan.writeOk, plan.written, plan.verified)
      modifies disk
      ensures Valid()
      ensures disk.trace == old(disk.trace) + Activation(old(disk.Now()), conn.running, plan).effects
      ensures result == Activation(old(disk.Now()), conn.running, plan).result
    {
      var target := conn.running.Other();
      var st := State(Written, target, src.artifact, src.sha256, src.bootloaderUpdate);
      if !c.saveOk { return InstallSaveError; }
      disk.WriteRecord(Some(st));
      var ok := conn.PrepareTarget(target, c.prepareOk);
      if !ok { return PrepareError; }
      ok := conn.SwapSlot(target, true, c.swapOk);
      if !ok { return SwapError; }
      if !c.saveSwappedOk { return InstallSaveError; }
      disk.WriteRecord(Some(st.(phase := Swapped)));
      if c.postHookOk { return Installed(target); }
      TakeBack(c, plan);
      return HookFailed;
    }

    /** Unwinding: failures are logged, and the next step is taken all the same. */
    method TakeBack(c: Calls, ghost plan: Plan)
      requires Valid()
      requires plan.unwindSwapOk == c.unwindSwapOk && plan.unwindClearOk == c.unwindClearOk
      modifies disk
      ensures Valid()
      ensures disk.trace == old(disk.trace) + Unwind(old(disk.Now()), conn.running, plan)
    {
      var ok := conn.SwapSlot(conn.running, false, c.unwindSwapOk);
      if c.unwindClearOk { disk.WriteRecord(None); }
    }

    method SaveFailed(st: State, saveOk: bool, failure: CommitResult) returns (result: CommitResult)
      requires Valid()
      modifies disk
      ensures Valid()
      ensures disk.trace == old(disk.trace) + MarkFailed(old(disk.Now()), st, saveOk, failure).effects
      ensures result == MarkFailed(old(disk.Now()), st, saveOk, failure).result
    {
      if !saveOk { return CommitSaveError; }
      disk.WriteRecord(Some(st.(phase := Failed)));
      return failure;
    }

    /** Gates first, then mark-good, clear, history: in this order. */
    method Commit(x: CommitInput) returns (result: CommitResult)
      requires Valid()
      modifies disk
      ensures Valid()
      ensures disk.trace == old(disk.trace) + CommitRun(old(disk.Now()), conn.running, x).effects
      ensures result == CommitRun(old(disk.Now()), conn.running, x).result
    {
      if !x.loadOk { return CommitLoadError; }
      if disk.record.None? { return NothingToCommit; }
      var st := disk.record.value;
      if st.phase != Swapped { return PhaseRefused(st.phase); }
      if !x.slotOk { return CommitSlotError; }
      if conn.running != st.target {
        result := SaveFailed(st, x.saveOk, FellBack);
        return;
      }
      if !x.platformOk {
        result := SaveFailed(st, x.saveOk, PlatformRejected);
        return;
      }
      if !x.healthOk {
        result := SaveFailed(st, x.saveOk, Unhealthy);
        return;
      }
      result := Finish(st, x);
    }

    /** Every gate is passed: mark-good, clear, history. */
    method Finish(st: State, x: CommitInput) returns (result: CommitResult)
      requires Valid()
      requires Passed(Evidence(st, conn.running, disk.env, x.platformOk, x.healthOk))
      modifies disk
      ensures Valid()
      ensures disk.trace == old(disk.trace) + Finalize(old(disk.Now()), st, conn.running, x).effects
      ensures result == Finalize(old(disk.Now()), st, conn.running, x).result
    {
      ghost var ev := Evidence(st, conn.running, disk.env, x.platformOk, x.healthOk);
      disk.Vouch(conn.running, Gates(ev));
      var ok := conn.MarkGood(x.markGoodOk);
      // A failed mark-good is logged and does not stop the commit.
      if !x.clearOk { return CommitClearError; }
      disk.WriteRecord(None);
      if x.appendOk {
        var h := AppendInstalled(if x.historyReadable then disk.history else [], Entry(st.artifact, st.target));
        disk.WriteHistory(h, Logged(Entry(st.artifact, st.target), ev));
      }
      return Committed;
    }

    method AppendInstalled(h: seq<Entry>, e: Entry) returns (capped: seq<Entry>)
      ensures capped == LastTen(h + [e])
    {
      capped := h + [e];
      if |capped| > HISTORY_CAP { capped := capped[|capped| - HISTORY_CAP..]; }
    }

    method Rollback(x: RollbackInput) returns (result: RollbackResult)
      requires Valid()
      modifies disk
      ensures Valid()
      ensures disk.trace == old(disk.trace) + RollbackRun(old(disk.Now()), conn.running, x).effects
      ensures result == RollbackRun(old(disk.Now()), conn.running, x).result
    {
      if !x.loadOk { return RollbackLoadError; }
      if disk.record.None? { return NothingToRollBack; }
      var target := disk.record.value.target;
      var origin := target.Other();
      if !x.slotOk { return RollbackSlotError; }
      // AbortPlatformUpdate would come here on the origin; this connector stages nothing.
      var ok := conn.SwapSlot(origin, false, x.swapOk);
      if !ok { return RollbackSwapError; }
      if !x.clearOk { return RollbackClearError; }
      disk.WriteRecord(None);
      return RolledBack(origin, conn.running == target);
    }

    method Switch(target: Slot, x: SwitchInput) returns (result: SwitchResult)
      requires Valid()
      modifies disk
      ensures Valid()
      ensures disk.trace == old(disk.trace) + SwitchRun(old(disk.Now()), conn.running, target, x).effects
      ensures result == SwitchRun(old(disk.Now()), conn.running, target, x).result
    {
      if !x.loadOk { return SwitchLoadError; }
      if disk.record.Some? { return UpdatePending; }
      if !x.slotOk { return SwitchSlotError; }
      if target == conn.running { return AlreadyRunning; }
      var ok := conn.PrepareTarget(target, x.prepareOk);
      if !ok { return SwitchPrepareError; }
      ok := conn.SwapSlot(target, false, x.swapOk);
      if !ok { return SwitchSwapError; }
      return SwitchDone;
    }

    /** The operator's escape hatch. */
    method MarkGood(x: MarkGoodInput) returns (result: MarkGoodResult)
      requires Valid()
      modifies disk
      ensures Valid()
      ensures disk.trace == old(disk.trace) + MarkGoodRun(old(disk.Now()), conn.running, x).effects
      ensures result == MarkGoodRun(old(disk.Now()), conn.running, x).result
    {
      if !x.connectorOk { return MarkGoodFailed; }
      disk.Vouch(conn.running, Operator);
      var ok := conn.MarkGood(true);
      if !x.clearOk { return MarkGoodClearError; }
      disk.WriteRecord(None);
      return MarkedGood;
    }

    method VerifyBoot(x: VerifyInput) returns (result: VerifyResult)
      requires Valid()
      modifies disk
      ensures Valid()
      ensures disk.trace == old(disk.trace) + VerifyBootRun(old(disk.Now()), conn.running, x).effects
      ensures result == VerifyBootRun(old(disk.Now()), conn.running, x).result
    {
      if !x.loadOk { return VerifyResult(true, false, true); }
      if disk.record.None? || disk.record.value.phase != Swapped { return VerifyResult(true, false, false); }
      var st := disk.record.value;
      var failed, confirm := false, true;
      if x.healthReadOk {
        var flagged := conn.BootIsCompromised();
        if flagged { failed, confirm := true, false; }
      }
      if x.slotOk && conn.running != st.target { failed := true; }
      if !failed { return VerifyResult(confirm, false, false); }
      if !x.saveOk { return VerifyResult(confirm, false, true); }
      disk.WriteRecord(Some(st.(phase := Failed)));
      return VerifyResult(confirm, true, false);
    }
  }

  lemma LastWrite(d: Durable, s: Slot, writes: seq<Image>)
    ensures Final(d, SlotWrites(d, s, writes)).ImageOf(s) == LastOr(d.ImageOf(s), writes)
  {
  }
}
