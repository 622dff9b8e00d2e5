/**
 Whole runs of a device: verbs, reboots, and power cuts between any two durable
 effects, composed with the bootloader's trial rule.
 */
module Runs {
  import opened Basics
  import opened DurableState
  import opened Protocol

  /**
   A device at work. `up` says that the booted system reached userspace,
   `rebootDue` that the caller was told to reboot and has not, `tried` that the
   pending target has been booted since its record was written.
   */
  datatype Machine = Machine(disk: Durable, running: Slot, up: bool, rebootDue: bool, tried: bool)

  datatype Verb =
    | Install(plan: Plan)
    | Commit(commit: CommitInput)
    | Rollback(rollback: RollbackInput)
    | Switch(target: Slot, switch: SwitchInput)
    | MarkGood(markGood: MarkGoodInput)
    | VerifyBoot(verify: VerifyInput)

  /** A verb of which `cut` effects happen before the power goes; it completes when it has no more. */
  datatype Event =
    | Do(verb: Verb, cut: nat)
    | Boot(comesUp: bool, scribble: Image) // the booted system may rewrite its own slot

  // ---- the bootloader (assumed) ----

  /** Un-armed: the boot slot. Armed: the boot slot once, then the other one. */
  function BootSlot(env: Env): Slot {
    if env.armed && env.count >= 1 then env.boot.Other() else env.boot
  }

  function BootEnv(env: Env): Env {
    if env.armed && env.count == 0 then env.(count := 1) else env
  }

  // ---- steps ----

  function Effects(d: Durable, running: Slot, v: Verb): seq<Durable> {
    match v
    case Install(p) => InstallRun(d, running, p).effects
    case Commit(x) => CommitRun(d, running, x).effects
    case Rollback(x) => RollbackRun(d, running, x).effects
    case Switch(t, x) => SwitchRun(d, running, t, x).effects
    case MarkGood(x) => MarkGoodRun(d, running, x).effects
    case VerifyBoot(x) => VerifyBootRun(d, running, x).effects
  }

  /** What the finished verb told the caller about rebooting; most verbs say nothing. */
  function RebootDue(m: Machine, v: Verb): bool {
    match v
    case Install(p) => m.rebootDue || InstallRun(m.disk, m.running, p).result.Installed?
    case Rollback(x) =>
      var r := RollbackRun(m.disk, m.running, x).result;
      if r.RolledBack? then r.rebootRequired else m.rebootDue
    case Switch(t, x) => m.rebootDue || SwitchRun(m.disk, m.running, t, x).result.SwitchDone?
    case MarkGood(x) => m.rebootDue && !MarkGoodRun(m.disk, m.running, x).result.MarkedGood?
    case _ => m.rebootDue
  }

  function Tried(m: Machine, v: Verb): bool {
    if v.Install? && m.disk.record.None? then false else m.tried
  }

  function Step(m: Machine, e: Event): Machine {
    match e
    case Do(v, cut) =>
      var effects := Effects(m.disk, m.running, v);
      if cut < |effects|
      then m.(disk := After(m.disk, effects, cut), up := false, tried := Tried(m, v))
      else m.(disk := Final(m.disk, effects), rebootDue := RebootDue(m, v), tried := Tried(m, v))
    case Boot(comesUp, scribble) =>
      var slot := BootSlot(m.disk.env);
      Machine(m.disk.(env := BootEnv(m.disk.env)).WithImage(slot, scribble), slot, comesUp, false,
              m.tried || (m.disk.record.Some? && m.disk.record.value.target == slot))
  }

  function Exec(m: Machine, run: seq<Event>): Machine
    decreases run
  {
    if run == [] then m else Exec(Step(m, run[0]), run[1..])
  }

  // ---- what the environment is trusted with ----

  /** Some leading part of the image has the digest. */
  ghost predicate HoldsPayload(img: Image, digest: Digest, sha: seq<byte> -> Digest) {
    exists n :: 0 <= n <= |img| && sha(img[..n]) == digest
  }

  /** WriteImage and the digest check, as seen from here: see Guarantees.HonestPlansFit. */
  ghost predicate Fits(p: Plan, before: Image, sha: seq<byte> -> Digest) {
    && (forall i :: 0 <= i < |p.writes| ==> |p.writes[i]| == |before|)
    && (p.writeOk && p.verified ==>
          HoldsPayload(if p.writes == [] then before else p.writes[|p.writes| - 1], p.sha256, sha))
  }

  /** The two places where the engine logs a connector failure and clears the record all the same. */
  predicate ForgetsFailedWrite(v: Verb) {
    || (v.Install? && !v.plan.postHookOk && !v.plan.unwindSwapOk && v.plan.unwindClearOk)
    || (v.Commit? && !v.commit.markGoodOk && v.commit.clearOk)
  }

  /**
   Verbs run on a system that is up. Install waits for a reboot that is due,
   switch goes to a committed slot, no failed write is forgotten, and a
   committed system comes up when booted.
   */
  ghost predicate Legal(m: Machine, e: Event, sha: seq<byte> -> Digest) {
    match e
    case Do(v, _) =>
      && m.up
      && !ForgetsFailedWrite(v)
      && (v.Install? ==> !m.rebootDue && Fits(v.plan, m.disk.ImageOf(m.running.Other()), sha))
      && (v.Switch? ==> v.target in m.disk.vouched)
    case Boot(comesUp, scribble) =>
      && |scribble| == |m.disk.ImageOf(BootSlot(m.disk.env))|
      && (BootSlot(m.disk.env) in m.disk.vouched ==> comesUp)
  }

  ghost predicate LegalRun(m: Machine, run: seq<Event>, sha: seq<byte> -> Digest)
    decreases run
  {
    run == [] || (Legal(m, run[0], sha) && LegalRun(Step(m, run[0]), run[1..], sha))
  }

  // ---- the invariant ----

  /** Whatever happens next, the bootloader is never left without a committed system to go to. */
  predicate Safe(d: Durable) {
    if d.env.armed
    then d.record.Some? && d.record.value.target == d.env.boot && d.env.boot.Other() in d.vouched
    else d.env.boot in d.vouched
  }

  predicate OriginCommitted(d: Durable) {
    d.record.Some? ==> d.record.value.target.Other() in d.vouched
  }

  ghost predicate PayloadInPlace(d: Durable, tried: bool, sha: seq<byte> -> Digest) {
    d.record.Some? && !tried ==> HoldsPayload(d.ImageOf(d.record.value.target), d.record.value.sha256, sha)
  }

  /** A history entry is justified when its commit passed every gate on an unflagged boot. */
  predicate Justified(l: Logged) {
    && Passed(l.evidence)
    && !Compromised(l.evidence.env, l.evidence.running)
    && l.entry == Entry(l.evidence.record.artifact, l.evidence.record.target)
  }

  predicate HistorySound(d: Durable) {
    && |d.history| <= HISTORY_CAP
    && |d.history| <= |d.ledger|
    && (forall i :: 0 <= i < |d.history| ==> d.history[i] == d.ledger[|d.ledger| - |d.history| + i].entry)
    && (forall l :: l in d.ledger ==> Justified(l))
  }

  ghost predicate DurableInv(d: Durable, tried: bool, sha: seq<byte> -> Digest) {
    Safe(d) && OriginCommitted(d) && PayloadInPlace(d, tried, sha) && HistorySound(d)
  }

  /** What additionally holds while a system is up between two verbs. */
  predicate RunningInv(m: Machine) {
    && (m.disk.env.armed && m.running == m.disk.env.boot ==> m.disk.env.count >= 1)
    && (m.disk.record.None? && !m.rebootDue ==> m.disk.env.boot == m.running)
  }

  ghost predicate Inv(m: Machine, sha: seq<byte> -> Digest) {
    DurableInv(m.disk, m.tried, sha) && (m.up ==> RunningInv(m))
  }

  /** A device as it leaves the factory. */
  function Factory(imageA: Image, imageB: Image): Machine {
    Machine(Durable(None, Permanent(SlotA), imageA, imageB, {SlotA}, [], []), SlotA, true, false, false)
  }

  // ---- each verb keeps it at every power-cut point ----

  ghost predicate EveryState(effects: seq<Durable>, tried: bool, sha: seq<byte> -> Digest) {
    forall i :: 0 <= i < |effects| ==> DurableInv(effects[i], tried, sha)
  }

  lemma UnwindKeeps(d: Durable, running: Slot, p: Plan, sha: seq<byte> -> Digest)
    requires DurableInv(d, false, sha) && running in d.vouched
    requires p.unwindSwapOk || !p.unwindClearOk
    ensures EveryState(Unwind(d, running, p), false, sha)
  {
  }

  lemma ActivationKeeps(d: Durable, running: Slot, p: Plan, sha: seq<byte> -> Digest)
    requires DurableInv(d, false, sha) && d.record.None? && d.env.boot == running
    requires HoldsPayload(d.ImageOf(running.Other()), p.sha256, sha)
    requires !ForgetsFailedWrite(Install(p))
    ensures EveryState(Activation(d, running, p).effects, false, sha)
  {
    var recorded := d.(record := Some(PendingRecord(p, running.Other(), Written)));
    assert DurableInv(recorded, false, sha);
    var prepared := recorded.(env := Baseline(d.env));
    assert DurableInv(prepared, false, sha);
    var armed := prepared.(env := Trial(running.Other()));
    assert DurableInv(armed, false, sha);
    var swapped := armed.(record := Some(PendingRecord(p, running.Other(), Swapped)));
    assert DurableInv(swapped, false, sha);
    if !p.postHookOk {
      UnwindKeeps(swapped, running, p, sha);
    }
  }

  lemma SlotWritesKeep(d: Durable, running: Slot, p: Plan, sha: seq<byte> -> Digest)
    requires DurableInv(d, false, sha) && d.record.None? && d.env.boot == running
    ensures EveryState(SlotWrites(d, running.Other(), p.writes), false, sha)
    ensures var f := Final(d, SlotWrites(d, running.Other(), p.writes));
            DurableInv(f, false, sha) && f.record.None? && f.env == d.env
  {
  }

  lemma InstallKeeps(d: Durable, running: Slot, tried: bool, p: Plan, sha: seq<byte> -> Digest)
    requires DurableInv(d, tried, sha) && Fits(p, d.ImageOf(running.Other()), sha)
    requires d.record.None? ==> d.env.boot == running && !tried
    requires !ForgetsFailedWrite(Install(p))
    ensures EveryState(InstallRun(d, running, p).effects, tried, sha)
  {
    if p.loadOk && d.record.None? && !p.refused {
      SlotWritesKeep(d, running, p, sha);
      if p.writeOk && p.verified {
        var f := Final(d, SlotWrites(d, running.Other(), p.writes));
        ActivationKeeps(f, running, p, sha);
      }
    }
  }

  lemma AppendKeepsHistory(d: Durable, readable: bool, entry: Entry, ev: Evidence)
    requires HistorySound(d) && Justified(Logged(entry, ev))
    ensures HistorySound(AppendEntry(d, readable, entry, ev))
  {
  }

  lemma FinalizeKeeps(d: Durable, st: State, running: Slot, x: CommitInput, tried: bool, sha: seq<byte> -> Digest)
    requires DurableInv(d, tried, sha) && d.record == Some(st)
    requires Passed(Evidence(st, running, d.env, x.platformOk, x.healthOk))
    requires x.markGoodOk || !x.clearOk
    ensures EveryState(Finalize(d, st, running, x).effects, tried, sha)
  {
    var ev := Evidence(st, running, d.env, x.platformOk, x.healthOk);
    var vouched := d.(vouched := d.vouched + {running});
    assert DurableInv(vouched, tried, sha);
    if x.markGoodOk {
      var good := vouched.(env := Permanent(running));
      assert DurableInv(good, tried, sha);
      var cleared := good.(record := None);
      assert DurableInv(cleared, tried, sha);
      AppendKeepsHistory(cleared, x.historyReadable, Entry(st.artifact, st.target), ev);
    }
  }

  lemma CommitKeeps(m: Machine, x: CommitInput, sha: seq<byte> -> Digest)
    requires Inv(m, sha) && Legal(m, Do(Commit(x), 0), sha)
    ensures EveryState(CommitRun(m.disk, m.running, x).effects, m.tried, sha)
  {
    if m.disk.record.Some? {
      var st := m.disk.record.value;
      if Passed(Evidence(st, m.running, m.disk.env, x.platformOk, x.healthOk)) {
        FinalizeKeeps(m.disk, st, m.running, x, m.tried, sha);
      }
    }
  }

  lemma RollbackKeeps(d: Durable, running: Slot, tried: bool, x: RollbackInput, sha: seq<byte> -> Digest)
    requires DurableInv(d, tried, sha)
    ensures EveryState(RollbackRun(d, running, x).effects, tried, sha)
  {
  }

  lemma SwitchKeeps(d: Durable, running: Slot, tried: bool, target: Slot, x: SwitchInput, sha: seq<byte> -> Digest)
    requires DurableInv(d, tried, sha) && target in d.vouched
    ensures EveryState(SwitchRun(d, running, target, x).effects, tried, sha)
  {
  }

  lemma MarkGoodKeeps(d: Durable, running: Slot, tried: bool, x: MarkGoodInput, sha: seq<byte> -> Digest)
    requires DurableInv(d, tried, sha)
    ensures EveryState(MarkGoodRun(d, running, x).effects, tried, sha)
  {
  }

  lemma VerifyBootKeeps(d: Durable, running: Slot, tried: bool, x: VerifyInput, sha: seq<byte> -> Digest)
    requires DurableInv(d, tried, sha)
    ensures EveryState(VerifyBootRun(d, running, x).effects, tried, sha)
  {
  }

  function Completed(m: Machine, v: Verb): Machine {
    m.(disk := Final(m.disk, Effects(m.disk, m.running, v)), rebootDue := RebootDue(m, v))
  }

  lemma InstallKeepsRunning(m: Machine, p: Plan, sha: seq<byte> -> Digest)
    requires Inv(m, sha) && Legal(m, Do(Install(p), 0), sha)
    ensures RunningInv(Completed(m, Install(p)))
  {
    if p.loadOk && m.disk.record.None? && !p.refused {
      SlotWritesKeep(m.disk, m.running, p, sha);
      if p.writeOk && p.verified {
        var f := Final(m.disk, SlotWrites(m.disk, m.running.Other(), p.writes));
        var rest := Activation(f, m.running, p).effects;
        FinalOfConcat(m.disk, SlotWrites(m.disk, m.running.Other(), p.writes), rest);
      }
    }
  }

  lemma FinalOfConcat(d: Durable, a: seq<Durable>, b: seq<Durable>)
    ensures Final(d, a + b) == Final(Final(d, a), b)
  {
    assert b == [] ==> a + b == a;
  }

  lemma CommitKeepsRunning(m: Machine, x: CommitInput, sha: seq<byte> -> Digest)
    requires Inv(m, sha) && Legal(m, Do(Commit(x), 0), sha)
    ensures RunningInv(Completed(m, Commit(x)))
  {
  }

  lemma OtherVerbsKeepRunning(m: Machine, v: Verb, sha: seq<byte> -> Digest)
    requires !v.Install? && !v.Commit?
    requires Inv(m, sha) && Legal(m, Do(v, 0), sha)
    ensures RunningInv(Completed(m, v))
  {
  }

  lemma VerbKeeps(m: Machine, v: Verb, sha: seq<byte> -> Digest)
    requires Inv(m, sha) && Legal(m, Do(v, 0), sha)
    ensures EveryState(Effects(m.disk, m.running, v), Tried(m, v), sha)
    ensures RunningInv(Completed(m, v))
  {
    match v
    case Install(p) => InstallKeeps(m.disk, m.running, Tried(m, v), p, sha); InstallKeepsRunning(m, p, sha);
    case Commit(x) => CommitKeeps(m, x, sha); CommitKeepsRunning(m, x, sha);
    case Rollback(x) => RollbackKeeps(m.disk, m.running, m.tried, x, sha); OtherVerbsKeepRunning(m, v, sha);
    case Switch(t, x) => SwitchKeeps(m.disk, m.running, m.tried, t, x, sha); OtherVerbsKeepRunning(m, v, sha);
    case MarkGood(x) => MarkGoodKeeps(m.disk, m.running, m.tried, x, sha); OtherVerbsKeepRunning(m, v, sha);
    case VerifyBoot(x) => VerifyBootKeeps(m.disk, m.running, m.tried, x, sha); OtherVerbsKeepRunning(m, v, sha);
  }

  lemma StepKeeps(m: Machine, e: Event, sha: seq<byte> -> Digest)
    requires Inv(m, sha) && Legal(m, e, sha)
    ensures Inv(Step(m, e), sha)
  {
    match e
    case Do(v, cut) =>
      assert Legal(m, Do(v, 0), sha);
      VerbKeeps(m, v, sha);
    case Boot(_, _) =>
  }

  /** Main result: over every run, at every point, the invariant holds. */
  lemma {:induction false} EveryRunKeeps(m: Machine, run: seq<Event>, sha: seq<byte> -> Digest)
    requires Inv(m, sha) && LegalRun(m, run, sha)
    ensures Inv(Exec(m, run), sha)
    decreases run
  {
    if run != [] {
      StepKeeps(m, run[0], sha);
      EveryRunKeeps(Step(m, run[0]), run[1..], sha);
    }
  }
}
