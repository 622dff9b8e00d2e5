/** What the invariant over all runs buys: the promises of the update protocol. */
module Guarantees {
  import opened Basics
  import opened DurableState
  import opened Protocol
  import opened Runs
  import BlockDev
  import Engine

  // ---- safety over whole runs ----

  /** From the factory, however verbs, reboots and power cuts interleave. */
  lemma EveryRunIsSafe(imageA: Image, imageB: Image, run: seq<Event>, sha: seq<byte> -> Digest)
    requires LegalRun(Factory(imageA, imageB), run, sha)
    ensures Safe(Exec(Factory(imageA, imageB), run).disk)
    ensures HistorySound(Exec(Factory(imageA, imageB), run).disk)
  {
    EveryRunKeeps(Factory(imageA, imageB), run, sha);
  }

  /** Plans performed by the real install satisfy what legal runs assume of them. */
  lemma HonestPlansFit(src: Engine.Source, c: Engine.Calls, p: Plan, before: Image, sha: seq<byte> -> Digest)
    requires Engine.Honest(src, p, before, sha)
    requires p == Engine.PlanOf(src, c, p.writes, p.writeOk, p.written, p.verified)
    ensures Fits(p, before, sha)
  {
    PartialWritesKeepLength(before, BlockDev.Stream(src.answers), p.writes);
    if p.writeOk && p.verified {
      OverlayHolds(before, BlockDev.Stream(src.answers), p.sha256, sha);
    }
  }

  lemma PartialWritesKeepLength(before: Image, payload: seq<byte>, writes: seq<Image>)
    requires BlockDev.PartialWrites(before, payload, writes)
    ensures forall i :: 0 <= i < |writes| ==> |writes[i]| == |before|
  {
    forall i | 0 <= i < |writes|
      ensures |writes[i]| == |before|
    {
      assert BlockDev.PartialWrite(before, payload, writes[i]);
    }
  }

  lemma OverlayHolds(before: Image, payload: seq<byte>, digest: Digest, sha: seq<byte> -> Digest)
    requires |payload| <= |before| && sha(payload) == digest
    ensures HoldsPayload(Overlay(before, payload), digest, sha)
  {
    assert Overlay(before, payload)[..|payload|] == payload;
  }

  /** No reachable state is bricked: of any two consecutive boots, one comes up. */
  lemma TwoBootsSuffice(m: Machine, first: Event, second: Event, sha: seq<byte> -> Digest)
    requires Inv(m, sha) && first.Boot? && second.Boot?
    requires Legal(m, first, sha) && Legal(Step(m, first), second, sha)
    ensures Step(m, first).up || Step(Step(m, first), second).up
    ensures !Step(m, first).up ==> Step(Step(m, first), second).running in m.disk.vouched
  {
    if m.disk.env.armed && m.disk.env.count == 0 {
      var again := Step(m, first);
      assert BootSlot(again.disk.env) == m.disk.env.boot.Other();
    }
  }

  /** Until the target is booted, a pending record implies its payload is on the slot. */
  lemma PendingMeansPayload(m: Machine, run: seq<Event>, sha: seq<byte> -> Digest)
    requires Inv(m, sha) && LegalRun(m, run, sha)
    ensures var e := Exec(m, run);
            e.disk.record.Some? && !e.tried ==>
              HoldsPayload(e.disk.ImageOf(e.disk.record.value.target), e.disk.record.value.sha256, sha)
  {
    EveryRunKeeps(m, run, sha);
  }

  /** Install never writes the slot that runs. */
  lemma InstallSparesTheRunningSlot(d: Durable, running: Slot, p: Plan)
    ensures forall i :: 0 <= i < |InstallRun(d, running, p).effects| ==>
              InstallRun(d, running, p).effects[i].ImageOf(running) == d.ImageOf(running)
  {
    var f := Final(d, SlotWrites(d, running.Other(), p.writes));
    assert f.ImageOf(running) == d.ImageOf(running);
    var rest := Activation(f, running, p).effects;
    assert forall i :: 0 <= i < |rest| ==> rest[i].ImageOf(running) == f.ImageOf(running);
  }

  /** And no other verb writes any slot. */
  lemma OnlyInstallWritesSlots(d: Durable, running: Slot, v: Verb, s: Slot)
    requires !v.Install?
    ensures forall i :: 0 <= i < |Effects(d, running, v)| ==> Effects(d, running, v)[i].ImageOf(s) == d.ImageOf(s)
  {
    if v.Commit? {
      CommitSparesImages(d, running, v.commit, s);
    }
  }

  lemma CommitSparesImages(d: Durable, running: Slot, x: CommitInput, s: Slot)
    ensures forall i :: 0 <= i < |CommitRun(d, running, x).effects| ==>
              CommitRun(d, running, x).effects[i].ImageOf(s) == d.ImageOf(s)
  {
  }

  /** The protocol is not only safe: an undisturbed update whose target comes up ends committed on it. */
  lemma UndisturbedUpdateCommits(m: Machine, p: Plan, boot: Event, sha: seq<byte> -> Digest)
    requires Inv(m, sha) && Legal(m, Do(Install(p), 0), sha) && boot.Boot? && boot.comesUp
    requires InstallRun(m.disk, m.running, p).result.Installed?
    ensures var installed := Step(m, Do(Install(p), |p.writes| + 4));
            var booted := Step(installed, boot);
            var verified := Step(booted, Do(VerifyBoot(VerifyInput(true, true, true, true)), 1));
            var end := Step(verified, Do(Commit(AllWell()), 4));
            && installed.rebootDue
            && end.up && end.running == m.running.Other()
            && end.disk.record.None? && end.disk.env == Permanent(end.running)
            && end.disk.vouched >= {SlotA, SlotB}
            && end.disk.history == LastTen(m.disk.history + [Entry(p.artifact, end.running)])
  {
    var writes := SlotWrites(m.disk, m.running.Other(), p.writes);
    SlotWritesKeep(m.disk, m.running, p, sha);
    InstallKeepsLedger(m.disk, m.running, p);
    var f := Final(m.disk, writes);
    var rest := Activation(f, m.running, p).effects;
    FinalOfConcat(m.disk, writes, rest);
    var installed := Step(m, Do(Install(p), |p.writes| + 4));
    assert installed.disk == rest[3];
    var booted := Step(installed, boot);
    assert VerifyBootRun(booted.disk, booted.running, VerifyInput(true, true, true, true)).effects == [];
  }

  /** A target that never comes up: the second boot is back on the origin, fails the deployment, and rolls back to rest. */
  lemma DeadTargetReturnsToOrigin(m: Machine, p: Plan, first: Event, second: Event, sha: seq<byte> -> Digest)
    requires Inv(m, sha) && Legal(m, Do(Install(p), 0), sha) && first.Boot? && second.Boot?
    requires InstallRun(m.disk, m.running, p).result.Installed?
    requires var dead := Step(Step(m, Do(Install(p), |p.writes| + 4)), first);
             Legal(dead, second, sha)
    ensures var dead := Step(Step(m, Do(Install(p), |p.writes| + 4)), first);
            var back := Step(dead, second);
            var failed := Step(back, Do(VerifyBoot(VerifyInput(true, true, true, true)), 1));
            var end := Step(failed, Do(Rollback(RollbackInput(true, true, true, true)), 2));
            && dead.running == m.running.Other()
            && back.running == m.running && back.up
            && failed.disk.record == Some(PendingRecord(p, m.running.Other(), Failed))
            && end.disk.record.None? && end.disk.env == Permanent(m.running) && !end.rebootDue
  {
    var writes := SlotWrites(m.disk, m.running.Other(), p.writes);
    SlotWritesKeep(m.disk, m.running, p, sha);
    var f := Final(m.disk, writes);
    var rest := Activation(f, m.running, p).effects;
    FinalOfConcat(m.disk, writes, rest);
    var installed := Step(m, Do(Install(p), |p.writes| + 4));
    assert installed.disk == rest[3];
    var dead := Step(installed, first);
    assert BootSlot(dead.disk.env) == m.running;
    assert m.running in dead.disk.vouched;
  }

  // ---- where the environment must cooperate: exact conditions ----

  /** Install never looks at the next-boot slot: it is safe exactly when that is the running one. */
  lemma InstallSafeIffNextBootIsRunning(m: Machine, p: Plan, sha: seq<byte> -> Digest)
    requires Inv(m, sha) && m.up && m.disk.record.None?
    requires p.loadOk && !p.refused && p.writes != []
    requires Fits(p, m.disk.ImageOf(m.running.Other()), sha) && !ForgetsFailedWrite(Install(p))
    ensures (forall i :: 0 <= i < |InstallRun(m.disk, m.running, p).effects| ==>
               Safe(InstallRun(m.disk, m.running, p).effects[i]))
            <==> m.disk.env.boot == m.running
  {
    var effects := InstallRun(m.disk, m.running, p).effects;
    if m.disk.env.boot == m.running {
      assert DurableInv(m.disk, false, sha);
      InstallKeeps(m.disk, m.running, false, p, sha);
    } else {
      assert effects[0] == SlotWrites(m.disk, m.running.Other(), p.writes)[0];
      assert !Safe(effects[0]);
    }
  }

  /** A committed slot, made the permanent next boot by switch, is overwritten while still due to boot. */
  lemma InstallAfterSwitchBricks(imageA: Image, imageB: Image, img: Image, p: Plan)
    requires p.loadOk && !p.refused && p.writes == [img]
    ensures var m0 := Factory(imageA, imageB);
            var m := m0.(disk := m0.disk.(vouched := {SlotA, SlotB}));
            var switched := Step(m, Do(Switch(SlotB, SwitchInput(true, true, true, true)), 2));
            var cut := Step(switched, Do(Install(p), 1));
            && cut.disk.record.None? && !cut.disk.env.armed
            && BootSlot(cut.disk.env) == SlotB && SlotB !in cut.disk.vouched
  {
    var m0 := Factory(imageA, imageB);
    var m := m0.(disk := m0.disk.(vouched := {SlotA, SlotB}));
    var switched := Step(m, Do(Switch(SlotB, SwitchInput(true, true, true, true)), 2));
    var effects := InstallRun(switched.disk, SlotA, p).effects;
    assert effects[0] == SlotWrites(switched.disk, SlotB, p.writes)[0];
  }

  /** Commit logs a failed mark-good and clears the record: safe exactly when no trial is armed. */
  lemma CommitSafeIffMarkGoodSticks(m: Machine, x: CommitInput, sha: seq<byte> -> Digest)
    requires Inv(m, sha) && m.up
    requires CommitRun(m.disk, m.running, x).result.Committed?
    ensures Safe(Final(m.disk, CommitRun(m.disk, m.running, x).effects))
            <==> (x.markGoodOk || !m.disk.env.armed)
  {
  }

  /** And otherwise the next boot silently returns to the origin, although the commit reported success. */
  lemma ForgottenMarkGoodUndoesCommit(m: Machine, x: CommitInput, sha: seq<byte> -> Digest)
    requires Inv(m, sha) && m.up && m.disk.env.armed
    requires CommitRun(m.disk, m.running, x).result.Committed? && !x.markGoodOk
    ensures var d := Final(m.disk, CommitRun(m.disk, m.running, x).effects);
            d.record.None? && BootSlot(d.env) == m.running.Other()
  {
  }

  /** The unwind after a failed post-install hook has the same gap. */
  lemma UnwindSafeIffRepointSticks(m: Machine, p: Plan, sha: seq<byte> -> Digest)
    requires Inv(m, sha) && m.up && !m.rebootDue
    requires Fits(p, m.disk.ImageOf(m.running.Other()), sha)
    requires InstallRun(m.disk, m.running, p).result.HookFailed?
    ensures Safe(Final(m.disk, InstallRun(m.disk, m.running, p).effects))
            <==> (p.unwindSwapOk || !p.unwindClearOk)
  {
    SlotWritesKeep(m.disk, m.running, p, sha);
    var writes := SlotWrites(m.disk, m.running.Other(), p.writes);
    var rest := Activation(Final(m.disk, writes), m.running, p).effects;
    FinalOfConcat(m.disk, writes, rest);
  }

  /**
   "Phase written implies the origin runs" is false, for every install: cut the
   power right after arming, and the next boot runs the target under a written
   record. Commit refuses it, and nothing is lost: the origin stays committed.
   */
  lemma WrittenWhileTargetRuns(m: Machine, p: Plan, boot: Event, sha: seq<byte> -> Digest)
    requires Inv(m, sha) && Legal(m, Do(Install(p), 0), sha) && boot.Boot?
    requires InstallRun(m.disk, m.running, p).result.Installed?
    ensures var b := Step(Step(m, Do(Install(p), |p.writes| + 3)), boot);
            && b.running == m.running.Other()
            && b.disk.record == Some(PendingRecord(p, b.running, Written))
            && CommitRun(b.disk, b.running, AllWell()).result == PhaseRefused(Written)
            && m.running in b.disk.vouched
  {
    var writes := SlotWrites(m.disk, m.running.Other(), p.writes);
    SlotWritesKeep(m.disk, m.running, p, sha);
    var rest := Activation(Final(m.disk, writes), m.running, p).effects;
    assert InstallRun(m.disk, m.running, p).effects[|writes| + 2] == rest[2];
  }

  /** The target runs under a record that does not say so. */
  predicate TargetRunsAsWritten(m: Machine) {
    m.disk.record.Some? && m.disk.record.value.phase == Written && m.running == m.disk.record.value.target
  }

  /** The only cut of a finished install that leads there is the one between arming and the second save. */
  lemma WrittenRunsTargetIffCutAfterArming(m: Machine, p: Plan, k: nat, boot: Event, sha: seq<byte> -> Digest)
    requires Inv(m, sha) && Legal(m, Do(Install(p), k), sha) && boot.Boot?
    requires InstallRun(m.disk, m.running, p).result.Installed?
    ensures TargetRunsAsWritten(Step(Step(m, Do(Install(p), k)), boot)) <==> k == |p.writes| + 3
  {
    var writes := SlotWrites(m.disk, m.running.Other(), p.writes);
    SlotWritesKeep(m.disk, m.running, p, sha);
    var rest := Activation(Final(m.disk, writes), m.running, p).effects;
    FinalOfConcat(m.disk, writes, rest);
    CutOfConcat(m.disk, writes, rest, k);
  }

  /**
   And for every install, finished, failed or unwound, cut anywhere: the next
   boot gets there exactly when the state left behind has a written record
   beside an armed trial.
   */
  lemma WrittenRunsTargetIffArmed(m: Machine, p: Plan, k: nat, boot: Event, sha: seq<byte> -> Digest)
    requires Inv(m, sha) && Legal(m, Do(Install(p), k), sha) && boot.Boot?
    requires m.disk.record.None?
    ensures var left := Step(m, Do(Install(p), k));
            TargetRunsAsWritten(Step(left, boot))
            <==> left.disk.record.Some? && left.disk.record.value.phase == Written && left.disk.env.armed
  {
    var left := Step(m, Do(Install(p), k));
    StepKeeps(m, Do(Install(p), k), sha);
    CutOfInstall(m.disk, m.running, p, k, sha);
    assert left.disk.env.armed ==> BootSlot(left.disk.env) == left.disk.env.boot;
  }

  /** Wherever an install is cut: nothing armed and the origin next, or a fresh trial of the target. */
  lemma CutOfInstall(d: Durable, running: Slot, p: Plan, k: nat, sha: seq<byte> -> Digest)
    requires DurableInv(d, false, sha) && d.record.None? && d.env.boot == running
    requires !ForgetsFailedWrite(Install(p))
    ensures var left := After(d, InstallRun(d, running, p).effects, k);
            && (left.env == Trial(running.Other()) || (!left.env.armed && left.env.boot == running))
            && (left.record.Some? ==> left.record.value.target == running.Other())
  {
    if p.loadOk && !p.refused {
      var writes := SlotWrites(d, running.Other(), p.writes);
      SlotWritesKeep(d, running, p, sha);
      if p.writeOk && p.verified {
        CutOfConcat(d, writes, Activation(Final(d, writes), running, p).effects, k);
      }
    }
  }

  /** A cut of two lists of effects falls into the first or the second. */
  lemma CutOfConcat(d: Durable, a: seq<Durable>, b: seq<Durable>, k: nat)
    ensures After(d, a + b, k) == if k <= |a| then After(d, a, k) else After(Final(d, a), b, k - |a|)
  {
  }

  // ---- power cuts inside commit ----

  function AllWell(): CommitInput {
    CommitInput(true, true, true, true, true, true, true, true, true)
  }

  /** Running the armed trial, about to commit. */
  ghost predicate OnTrial(m: Machine, sha: seq<byte> -> Digest) {
    && Inv(m, sha) && m.up
    && m.disk.record.Some? && m.disk.record.value.phase == Swapped
    && m.running == m.disk.record.value.target
    && m.disk.env.armed
  }

  predicate PassesGates(x: CommitInput) {
    x.loadOk && x.slotOk && x.platformOk && x.healthOk
  }

  /** The origin runs, and the verifier, however it learns of it, marks the record failed. */
  ghost predicate FellBackAndIsMarked(b: Machine, st: State) {
    && b.running == st.target.Other() && b.disk.record == Some(st)
    && forall v: VerifyInput :: v.loadOk && v.saveOk && (v.slotOk || v.healthReadOk) ==>
         VerifyBootRun(b.disk, b.running, v).effects == [b.disk.(record := Some(st.(phase := Failed)))]
  }

  /** The target runs for good, the verifier leaves the record alone, and a second commit adds the one entry. */
  ghost predicate SecondCommitFinishes(b: Machine, st: State, history: seq<Entry>) {
    && b.running == st.target && !b.disk.env.armed && b.disk.record == Some(st)
    && (forall v: VerifyInput :: VerifyBootRun(b.disk, b.running, v).effects == [])
    && CommitRun(b.disk, b.running, AllWell()).result == Committed
    && var f := Final(b.disk, CommitRun(b.disk, b.running, AllWell()).effects);
       f.record.None? && f.env == Permanent(st.target) && f.history == LastTen(history + [Entry(st.artifact, st.target)])
  }

  /** The target runs for good without a record. */
  predicate AtRestOnTarget(b: Machine, st: State) {
    b.running == st.target && b.disk.env == Permanent(st.target) && b.disk.record.None? && st.target in b.disk.vouched
  }

  /** What a finalization leaves behind when it is cut after k effects. */
  function FinalizeCut(d: Durable, st: State, running: Slot, x: CommitInput, k: nat): Durable {
    var vouched := d.(vouched := d.vouched + {running});
    var good := vouched.(env := Permanent(running));
    var cleared := good.(record := None);
    if k == 0 then d
    else if k == 1 || !x.markGoodOk then vouched
    else if k == 2 || !x.clearOk then good
    else if k == 3 || !x.appendOk then cleared
    else AppendEntry(cleared, x.historyReadable, Entry(st.artifact, st.target),
                     Evidence(st, running, d.env, x.platformOk, x.healthOk))
  }

  lemma CutOfFinalize(d: Durable, st: State, running: Slot, x: CommitInput, k: nat)
    requires x.markGoodOk || !x.clearOk
    ensures After(d, Finalize(d, st, running, x).effects, k) == FinalizeCut(d, st, running, x, k)
  {
  }

  /** The trial is still armed and counted: the next boot is the origin. */
  lemma TrialFallsBack(c: Machine, st: State, boot: Event, sha: seq<byte> -> Digest)
    requires Safe(c.disk) && c.disk.env.armed && c.disk.env.count >= 1
    requires c.disk.record == Some(st) && st.phase == Swapped
    requires boot.Boot? && Legal(c, boot, sha)
    ensures Step(c, boot).up && FellBackAndIsMarked(Step(c, boot), st)
    ensures Step(c, boot).disk.history == c.disk.history && Step(c, boot).disk.ledger == c.disk.ledger
  {
  }

  /** The target is pinned: it boots again, with or without its record. */
  lemma PinnedTargetStays(c: Machine, st: State, boot: Event, history: seq<Entry>)
    requires c.disk.env == Permanent(st.target) && st.target in c.disk.vouched && st.phase == Swapped
    requires boot.Boot?
    ensures var b := Step(c, boot);
            && (c.disk.record == Some(st) && c.disk.history == history ==> SecondCommitFinishes(b, st, history))
            && (c.disk.record.None? ==> AtRestOnTarget(b, st))
            && b.disk.history == c.disk.history && b.disk.ledger == c.disk.ledger
            && b.up == boot.comesUp
  {
  }

  /**
   A commit on a trial that passes its gates, whichever of its later calls fail,
   cut after k effects, then a boot. Before the environment is written: fallback,
   and the verifier marks the record failed. After it: the target boots for good,
   and a second commit finishes with one entry. After the record is gone: only
   the entry is missing, or nothing.
   */
  lemma CommitCutAnywhere(m: Machine, x: CommitInput, k: nat, boot: Event, sha: seq<byte> -> Digest)
    requires OnTrial(m, sha) && PassesGates(x) && Legal(m, Do(Commit(x), k), sha)
    requires boot.Boot? && Legal(Step(m, Do(Commit(x), k)), boot, sha)
    ensures var st := m.disk.record.value;
            var b := Step(Step(m, Do(Commit(x), k)), boot);
            && b.up
            && (if k <= 1 || !x.markGoodOk then FellBackAndIsMarked(b, st)
                else if k == 2 || !x.clearOk then SecondCommitFinishes(b, st, m.disk.history)
                else AtRestOnTarget(b, st))
            && (if k <= 3 || !x.clearOk || !x.appendOk
                then b.disk.history == m.disk.history && b.disk.ledger == m.disk.ledger
                else b.disk.history == LastTen((if x.historyReadable then m.disk.history else [])
                                               + [Entry(st.artifact, st.target)])
                     && b.disk.ledger == LedgerWithCommit(m.disk, m.running))
  {
    var st := m.disk.record.value;
    var c := Step(m, Do(Commit(x), k));
    StepKeeps(m, Do(Commit(x), k), sha);
    CutOfFinalize(m.disk, st, m.running, x, k);
    assert c.disk == FinalizeCut(m.disk, st, m.running, x, k);
    if k <= 1 || !x.markGoodOk {
      TrialFallsBack(c, st, boot, sha);
    } else {
      PinnedTargetStays(c, st, boot, m.disk.history);
    }
  }

  // ---- rollback ----

  /** Boots, rollbacks, and the verifier that runs on every boot. */
  predicate Recovering(run: seq<Event>) {
    forall e :: e in run ==> e.Boot? || e.verb.Rollback? || e.verb.VerifyBoot?
  }

  /** The same deployment, failed or not. */
  predicate SameDeployment(st: State, was: State) {
    st.(phase := Failed) == was.(phase := Failed)
  }

  lemma RecoveringStep(m: Machine, e: Event, origin: Slot)
    requires e.Boot? || e.verb.Rollback? || e.verb.VerifyBoot?
    requires (m.disk.record.Some? && m.disk.record.value.target == origin.Other())
             || (m.disk.record.None? && m.disk.env == Permanent(origin))
    ensures var d := Step(m, e).disk;
            && d.history == m.disk.history && d.vouched == m.disk.vouched
            && (d.record.Some? ==> m.disk.record.Some? && SameDeployment(d.record.value, m.disk.record.value))
            && (d.record.None? ==> d.env == Permanent(origin))
  {
  }

  /** Rollbacks cut, failed or repeated: the record of the target stays, or the origin is the permanent next boot. */
  lemma {:induction false} RollbacksConverge(m: Machine, run: seq<Event>, origin: Slot, sha: seq<byte> -> Digest)
    requires Inv(m, sha) && LegalRun(m, run, sha) && Recovering(run)
    requires (m.disk.record.Some? && m.disk.record.value.target == origin.Other())
             || (m.disk.record.None? && m.disk.env == Permanent(origin))
    ensures var e := Exec(m, run).disk;
            && e.history == m.disk.history && e.vouched == m.disk.vouched
            && (e.record.Some? ==> m.disk.record.Some? && SameDeployment(e.record.value, m.disk.record.value))
            && (e.record.None? ==> e.env == Permanent(origin))
    decreases run
  {
    if run != [] {
      StepKeeps(m, run[0], sha);
      RecoveringStep(m, run[0], origin);
      RollbacksConverge(Step(m, run[0]), run[1..], origin, sha);
    }
  }

  lemma {:induction false} ExecAppend(m: Machine, run: seq<Event>, e: Event)
    ensures Exec(m, run + [e]) == Step(Exec(m, run), e)
    decreases run
  {
    if run == [] {
      assert Exec(Step(m, e), []) == Step(m, e);
      assert run + [e] == [e];
    } else {
      ExecAppend(Step(m, run[0]), run[1..], e);
      assert (run + [e])[1..] == run[1..] + [e];
    }
  }

  /**
   From any state with a pending record, after any number of interrupted
   rollbacks, reboots and boot verifications, one undisturbed rollback finishes: no record, nothing
   armed, and the committed origin is what boots.
   */
  lemma RollbackFinishes(m: Machine, run: seq<Event>, cut: nat, sha: seq<byte> -> Digest)
    requires Inv(m, sha) && m.disk.record.Some? && LegalRun(m, run, sha) && Recovering(run)
    requires Exec(m, run).up && cut >= 2
    ensures var x := RollbackInput(true, true, true, true);
            var origin := m.disk.record.value.target.Other();
            var before := Exec(m, run);
            var end := Exec(m, run + [Do(Rollback(x), cut)]);
            && end.disk.record.None? && end.disk.env == Permanent(origin)
            && BootSlot(end.disk.env) == origin && origin in end.disk.vouched
            && (before.disk.record.Some? ==>
                  RollbackRun(before.disk, before.running, x).result
                  == RolledBack(origin, before.running == origin.Other()))
  {
    var x := RollbackInput(true, true, true, true);
    RollbacksConverge(m, run, m.disk.record.value.target.Other(), sha);
    EveryRunKeeps(m, run, sha);
    ExecAppend(m, run, Do(Rollback(x), cut));
  }

  // ---- failed deployments and the history ----

  predicate NeverClears(run: seq<Event>) {
    forall e :: e in run ==> e.Boot? || !(e.verb.Rollback? || e.verb.MarkGood?)
  }

  /** A failed deployment stays failed until rollback or mark-good. */
  lemma {:induction false} FailedIsAbsorbing(m: Machine, run: seq<Event>)
    requires m.disk.record.Some? && m.disk.record.value.phase == Failed && NeverClears(run)
    ensures Exec(m, run).disk.record == m.disk.record
    ensures Exec(m, run).disk.history == m.disk.history
    decreases run
  {
    if run != [] {
      assert Step(m, run[0]).disk.record == m.disk.record;
      FailedIsAbsorbing(Step(m, run[0]), run[1..]);
    }
  }

  /** The ledger after a commit that logged its entry. */
  function LedgerWithCommit(d: Durable, running: Slot): seq<Logged>
    requires d.record.Some?
  {
    d.ledger + [Logged(Entry(d.record.value.artifact, running), Evidence(d.record.value, running, d.env, true, true))]
  }

  lemma CommitLedger(d: Durable, running: Slot, x: CommitInput)
    ensures var r := CommitRun(d, running, x);
            forall i :: 0 <= i < |r.effects| ==>
              r.effects[i].ledger == d.ledger
              || (&& d.record.Some? && r.result == Committed && i == |r.effects| - 1
                  && d.record.value.phase == Swapped && d.record.value.target == running
                  && r.effects[i].ledger == LedgerWithCommit(d, running))
  {
  }

  /** The history only ever grows by a commit that passed every gate on the running target. */
  lemma HistoryGrowsByCommitsOnly(m: Machine, e: Event)
    ensures var l := Step(m, e).disk.ledger;
            l == m.disk.ledger
            || (&& e.Do? && e.verb.Commit? && m.disk.record.Some?
                && CommitRun(m.disk, m.running, e.verb.commit).result == Committed
                && m.disk.record.value.phase == Swapped && m.disk.record.value.target == m.running
                && l == LedgerWithCommit(m.disk, m.running))
  {
    match e
    case Boot(_, _) =>
    case Do(v, cut) =>
      match v {
        case Install(p) => InstallKeepsLedger(m.disk, m.running, p);
        case Commit(x) => CommitLedger(m.disk, m.running, x);
        case _ =>
      }
  }

  lemma InstallKeepsLedger(d: Durable, running: Slot, p: Plan)
    ensures forall i :: 0 <= i < |InstallRun(d, running, p).effects| ==>
              InstallRun(d, running, p).effects[i].ledger == d.ledger
              && InstallRun(d, running, p).effects[i].history == d.history
  {
    var writes := SlotWrites(d, running.Other(), p.writes);
    var f := Final(d, writes);
    assert f.ledger == d.ledger && f.history == d.history;
    var rest := Activation(f, running, p).effects;
    assert forall i :: 0 <= i < |rest| ==> rest[i].ledger == d.ledger && rest[i].history == d.history;
  }

  function Entries(ledger: seq<Logged>): seq<Entry> {
    seq(|ledger|, i requires 0 <= i < |ledger| => ledger[i].entry)
  }

  predicate HistoryNeverLost(run: seq<Event>) {
    forall e :: e in run && e.Do? && e.verb.Commit? ==> e.verb.commit.historyReadable
  }

  lemma AppendKeepsLastTen(d: Durable, entry: Entry, ev: Evidence)
    requires d.history == LastTen(Entries(d.ledger))
    ensures AppendEntry(d, true, entry, ev).history == LastTen(Entries(AppendEntry(d, true, entry, ev).ledger))
  {
    assert Entries(d.ledger + [Logged(entry, ev)]) == Entries(d.ledger) + [entry];
  }

  lemma CommitKeepsLastTen(d: Durable, running: Slot, x: CommitInput)
    requires d.history == LastTen(Entries(d.ledger)) && x.historyReadable
    ensures forall i :: 0 <= i < |CommitRun(d, running, x).effects| ==>
              CommitRun(d, running, x).effects[i].history == LastTen(Entries(CommitRun(d, running, x).effects[i].ledger))
  {
    if d.record.Some? {
      var st := d.record.value;
      AppendKeepsLastTen(d, Entry(st.artifact, st.target), Evidence(st, running, d.env, x.platformOk, x.healthOk));
    }
  }

  lemma OtherVerbsKeepHistory(d: Durable, running: Slot, v: Verb)
    requires !v.Install? && !v.Commit?
    ensures forall i :: 0 <= i < |Effects(d, running, v)| ==>
              Effects(d, running, v)[i].history == d.history && Effects(d, running, v)[i].ledger == d.ledger
  {
  }

  /** One step of any kind: no entry is lost but the oldest. */
  lemma StepKeepsLastTen(m: Machine, e: Event)
    requires m.disk.history == LastTen(Entries(m.disk.ledger))
    requires e.Do? && e.verb.Commit? ==> e.verb.commit.historyReadable
    ensures Step(m, e).disk.history == LastTen(Entries(Step(m, e).disk.ledger))
  {
    match e
    case Boot(_, _) =>
    case Do(v, _) =>
      match v {
        case Install(p) => InstallKeepsLedger(m.disk, m.running, p);
        case Commit(x) => CommitKeepsLastTen(m.disk, m.running, x);
        case _ => OtherVerbsKeepHistory(m.disk, m.running, v);
      }
  }

  /** While the history file stays readable it is the last ten entries ever appended. */
  lemma {:induction false} HistoryIsLastTen(m: Machine, run: seq<Event>)
    requires m.disk.history == LastTen(Entries(m.disk.ledger)) && HistoryNeverLost(run)
    ensures Exec(m, run).disk.history == LastTen(Entries(Exec(m, run).disk.ledger))
    decreases run
  {
    if run != [] {
      StepKeepsLastTen(m, run[0]);
      HistoryIsLastTen(Step(m, run[0]), run[1..]);
    }
  }

  // ---- the boot verifier ----

  /** On a swapped record the bootloader's own verdict and the slot comparison agree while armed. */
  lemma VerdictsAgree(m: Machine, sha: seq<byte> -> Digest)
    requires Inv(m, sha) && m.disk.record.Some? && m.disk.env.armed
    ensures Compromised(m.disk.env, m.running) <==> m.running != m.disk.record.value.target
  {
  }

  /** With readable inputs the verifier fails a deployment exactly when it is swapped and its target is not running. */
  lemma VerifierMarksExactlyFallbacks(m: Machine, sha: seq<byte> -> Digest)
    requires Inv(m, sha)
    ensures var r := VerifyBootRun(m.disk, m.running, VerifyInput(true, true, true, true));
            && (r.result.markedFailed <==>
                  && m.disk.record.Some? && m.disk.record.value.phase == Swapped
                  && m.running != m.disk.record.value.target)
            && (r.result.markedFailed ==> r.effects == [m.disk.(record := Some(m.disk.record.value.(phase := Failed)))])
            && (!r.result.markedFailed ==> r.effects == [])
            && (r.result.confirmed <==> !(r.result.markedFailed && Compromised(m.disk.env, m.running)))
  {
  }
}
