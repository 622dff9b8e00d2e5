/**
 How each verb ends, for every answer of the outside world: exactly when it
 succeeds, and the state it leaves when it does and when it does not.
 */
module Outcomes {
  import opened Basics
  import opened DurableState
  import opened Protocol
  import opened Runs
  import Guarantees

  // ---- install ----

  /** Every gate before the first write is passed. */
  predicate Admitted(d: Durable, p: Plan) {
    p.loadOk && d.record.None? && !p.refused
  }

  lemma InstallSucceedsIff(d: Durable, running: Slot, p: Plan)
    ensures var r := InstallRun(d, running, p);
            var target := running.Other();
            && (r.result == Installed(target)
                <==> Admitted(d, p) && p.writeOk && p.verified
                     && p.saveOk && p.prepareOk && p.swapOk && p.saveSwappedOk && p.postHookOk)
            && (r.result.Installed? ==>
                  && r.result == Installed(target)
                  && Final(d, r.effects).record == Some(State(Swapped, target, p.artifact, p.sha256, p.bootloaderUpdate))
                  && Final(d, r.effects).env == Env(target, true, 0))
  {
    InstallInParts(d, running, p);
  }

  /** Not admitted: nothing happens. Not verified, or not recorded: neither record nor environment changes, at any point. */
  lemma UnverifiedInstallLeavesNoTrace(d: Durable, running: Slot, p: Plan)
    ensures !Admitted(d, p) ==> InstallRun(d, running, p).effects == []
    ensures Admitted(d, p) && !(p.writeOk && p.verified && p.saveOk) ==>
              forall i :: 0 <= i < |InstallRun(d, running, p).effects| ==>
                var e := InstallRun(d, running, p).effects[i];
                e.record.None? && e.env == d.env && e.ImageOf(running) == d.ImageOf(running)
    ensures var r := InstallRun(d, running, p).result;
            && (r == InFlight <==> p.loadOk && d.record.Some?)
            && (r == WriteError <==> Admitted(d, p) && !p.writeOk)
            && (r == Rejected <==> Admitted(d, p) && p.writeOk && !p.verified)
  {
  }

  /** A verified install that stops on the way: what is recorded and what the bootloader will do. */
  lemma InterruptedInstallEnds(d: Durable, running: Slot, p: Plan)
    requires Admitted(d, p) && p.writeOk && p.verified && p.saveOk
    ensures var f := Final(d, InstallRun(d, running, p).effects);
            var target := running.Other();
            var written := Some(State(Written, target, p.artifact, p.sha256, p.bootloaderUpdate));
            var swapped := Some(State(Swapped, target, p.artifact, p.sha256, p.bootloaderUpdate));
            && (!p.prepareOk ==> f.record == written && f.env == d.env)
            && (p.prepareOk && !p.swapOk ==> f.record == written && f.env == Env(d.env.boot, false, 0))
            && (p.prepareOk && p.swapOk && !p.saveSwappedOk ==> f.record == written && f.env == Env(target, true, 0))
            && (p.prepareOk && p.swapOk && p.saveSwappedOk && !p.postHookOk ==>
                  && f.record == (if p.unwindClearOk then None else swapped)
                  && f.env == if p.unwindSwapOk then Env(running, false, 0) else Env(target, true, 0))
  {
    InstallInParts(d, running, p);
  }

  /** The environment is not touched before the record is durable. */
  lemma EnvironmentWaitsForRecord(d: Durable, running: Slot, p: Plan, i: nat)
    requires i < |InstallRun(d, running, p).effects|
    requires d.record.None? && (InstallRun(d, running, p).result == HookFailed ==> i + 1 < |InstallRun(d, running, p).effects|)
    ensures InstallRun(d, running, p).effects[i].record.None? ==> InstallRun(d, running, p).effects[i].env == d.env
  {
  }

  lemma InstallInParts(d: Durable, running: Slot, p: Plan)
    ensures Admitted(d, p) ==>
              var f := Final(d, SlotWrites(d, running.Other(), p.writes));
              && f.env == d.env && f.record == d.record
              && (p.writeOk && p.verified ==>
                    Final(d, InstallRun(d, running, p).effects) == Final(f, Activation(f, running, p).effects))
  {
    var writes := SlotWrites(d, running.Other(), p.writes);
    FinalOfConcat(d, writes, Activation(Final(d, writes), running, p).effects);
  }

  // ---- commit ----

  /** Commit gets to judge the deployment. */
  predicate Judged(d: Durable, x: CommitInput) {
    x.loadOk && d.record.Some? && d.record.value.phase == Swapped && x.slotOk
  }

  predicate GatesHold(d: Durable, running: Slot, x: CommitInput)
    requires d.record.Some?
  {
    running == d.record.value.target && x.platformOk && x.healthOk
  }

  lemma CommitSucceedsIff(d: Durable, running: Slot, x: CommitInput)
    ensures var r := CommitRun(d, running, x);
            && (r.result == Committed <==> Judged(d, x) && GatesHold(d, running, x) && x.clearOk)
            && (r.result == Committed ==>
                  var f := Final(d, r.effects);
                  && f.record.None? && running in f.vouched
                  && f.env == (if x.markGoodOk then Env(running, false, 0) else d.env)
                  && (x.appendOk && x.historyReadable ==>
                        f.history == LastTen(d.history + [Entry(d.record.value.artifact, running)]))
                  && (!x.appendOk ==> f.history == d.history))
            && (Judged(d, x) && GatesHold(d, running, x) && !x.clearOk ==>
                  var f := Final(d, r.effects);
                  && f.record == d.record && f.history == d.history
                  && f.env == if x.markGoodOk then Env(running, false, 0) else d.env)
  {
  }

  /** A deployment that fails a gate is marked failed, and only that changes. */
  lemma FailedGateMarksFailed(d: Durable, running: Slot, x: CommitInput)
    requires Judged(d, x) && !GatesHold(d, running, x)
    ensures var r := CommitRun(d, running, x);
            && r.result == (if !x.saveOk then CommitSaveError
                            else if running != d.record.value.target then FellBack
                            else if !x.platformOk then PlatformRejected else Unhealthy)
            && (x.saveOk ==> Final(d, r.effects) == d.(record := Some(d.record.value.(phase := Failed))))
            && (!x.saveOk ==> r.effects == [])
  {
  }

  /** A commit that cannot judge changes nothing and does not succeed. */
  lemma UnjudgedCommitChangesNothing(d: Durable, running: Slot, x: CommitInput)
    requires !Judged(d, x)
    ensures CommitRun(d, running, x).effects == [] && CommitRun(d, running, x).result != Committed
  {
  }

  /** After a failed gate no commit succeeds, over every run without rollback or mark-good, and the history stays. */
  lemma FailedGateIsFinal(m: Machine, x: CommitInput, run: seq<Event>, y: CommitInput)
    requires Judged(m.disk, x) && !GatesHold(m.disk, m.running, x) && x.saveOk
    requires Guarantees.NeverClears(run)
    ensures var e := Exec(Step(m, Do(Commit(x), 1)), run);
            && e.disk.record == Some(m.disk.record.value.(phase := Failed))
            && e.disk.history == m.disk.history
            && CommitRun(e.disk, e.running, y).result != Committed
  {
    FailedGateMarksFailed(m.disk, m.running, x);
    Guarantees.FailedIsAbsorbing(Step(m, Do(Commit(x), 1)), run);
  }

  /** The history keeps ten entries, and those are the latest. */
  lemma LatestTenAreKept<T>(s: seq<T>)
    ensures |LastTen(s)| == Min(|s|, 10)
    ensures LastTen(s) == s[|s| - |LastTen(s)|..]
  {
  }

  // ---- rollback, switch, mark-good, verify-boot ----

  lemma RollbackSucceedsIff(d: Durable, running: Slot, x: RollbackInput)
    ensures var r := RollbackRun(d, running, x);
            var f := Final(d, r.effects);
            && (r.result.RolledBack? <==> x.loadOk && d.record.Some? && x.slotOk && x.swapOk && x.clearOk)
            && (r.result.RolledBack? ==>
                  var target := d.record.value.target;
                  && r.result == RolledBack(target.Other(), running == target)
                  && f == d.(record := None, env := Env(target.Other(), false, 0)))
            && (!r.result.RolledBack? ==> f.record == d.record)
            && (!(x.loadOk && d.record.Some? && x.slotOk && x.swapOk) ==> f == d)
  {
  }

  lemma SwitchSucceedsIff(d: Durable, running: Slot, target: Slot, x: SwitchInput)
    ensures var r := SwitchRun(d, running, target, x);
            var f := Final(d, r.effects);
            && (r.result.SwitchDone? <==>
                  x.loadOk && d.record.None? && x.slotOk && target != running && x.prepareOk && x.swapOk)
            && (r.result.SwitchDone? ==> f == d.(env := Env(target, false, 0)))
            && (!r.result.SwitchDone? ==> f == d || f == d.(env := Env(d.env.boot, false, 0)))
            && (d.record.Some? ==> f == d)
  {
  }

  lemma MarkGoodSucceedsIff(d: Durable, running: Slot, x: MarkGoodInput)
    ensures var r := MarkGoodRun(d, running, x);
            var f := Final(d, r.effects);
            && (r.result == MarkedGood <==> x.connectorOk && x.clearOk)
            && (!x.connectorOk ==> f == d)
            && (x.connectorOk ==>
                  f == d.(env := Env(running, false, 0), vouched := d.vouched + {running},
                          record := if x.clearOk then None else d.record))
  {
  }

  /** For every answer: when the verifier fails a deployment, when it withholds the confirmation, when it errs. */
  lemma VerifierOutcome(d: Durable, running: Slot, x: VerifyInput)
    ensures var r := VerifyBootRun(d, running, x);
            var onTrial := x.loadOk && d.record.Some? && d.record.value.phase == Swapped;
            var flagged := x.healthReadOk && d.env.armed && d.env.boot != running;
            var dead := onTrial && (flagged || (x.slotOk && running != d.record.value.target));
            && (r.result.markedFailed <==> dead && x.saveOk)
            && (r.result.confirmed <==> !(onTrial && flagged))
            && (r.result.error <==> !x.loadOk || (dead && !x.saveOk))
            && Final(d, r.effects) == if r.result.markedFailed then d.(record := Some(d.record.value.(phase := Failed))) else d
  {
  }
}
