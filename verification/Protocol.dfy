/**
 What each verb of the engine does to durable state, one durable effect at a
 time. Every specification function returns the list of states the device
 passes through, so a power cut is a prefix of that list. The class `Engine`
 is proved to perform exactly these effects.
 */
module Protocol {
  import opened Basics
  import opened DurableState

  datatype Run<R> = Run(effects: seq<Durable>, result: R)

  /** The state after the first k effects; all of them when there are fewer. */
  function After(d: Durable, effects: seq<Durable>, k: nat): Durable {
    if k == 0 || effects == [] then d
    else if k >= |effects| then effects[|effects| - 1]
    else effects[k - 1]
  }

  function Final(d: Durable, effects: seq<Durable>): Durable {
    After(d, effects, |effects|)
  }

  // ---- trial connector: environment values it writes ----

  function Baseline(env: Env): Env {
    env.(armed := false, count := 0)
  }

  function Trial(s: Slot): Env {
    Env(s, true, 0)
  }

  function Permanent(s: Slot): Env {
    Env(s, false, 0)
  }

  // ---- install ----

  /** How the outside world answered one install: the artifact it read and which calls failed. */
  datatype Plan = Plan(
    loadOk: bool,            // state.json readable
    refused: bool,           // any gate before the first write: manifest, policy, slot, preflight, capacity, hook
    artifact: Artifact, sha256: Digest, bootloaderUpdate: bool,
    writes: seq<Image>,      // target content after each write that reached the device
    writeOk: bool,           // WriteImage returned no error
    written: nat,            // bytes it reported
    verified: bool,          // size and digests match the manifest
    saveOk: bool, prepareOk: bool, swapOk: bool, saveSwappedOk: bool,
    postHookOk: bool, unwindSwapOk: bool, unwindClearOk: bool)

  datatype InstallResult =
    | InstallLoadError | InFlight | Refused | WriteError | Rejected | InstallSaveError
    | PrepareError | SwapError | HookFailed | Installed(target: Slot)

  function SlotWrites(d: Durable, s: Slot, writes: seq<Image>): seq<Durable> {
    seq(|writes|, i requires 0 <= i < |writes| => d.WithImage(s, writes[i]).(vouched := d.vouched - {s}))
  }

  function PendingRecord(p: Plan, target: Slot, phase: Phase): State {
    State(phase, target, p.artifact, p.sha256, p.bootloaderUpdate)
  }

  /** After a failed post-install hook: re-point, then clear, whether or not the first worked. */
  function Unwind(d: Durable, running: Slot, p: Plan): seq<Durable> {
    var repointed := if p.unwindSwapOk then d.(env := Permanent(running)) else d;
    (if p.unwindSwapOk then [repointed] else []) + (if p.unwindClearOk then [repointed.(record := None)] else [])
  }

  /** From the verified write on: record, prepare, arm, record again, then the post-install hook. */
  function Activation(d: Durable, running: Slot, p: Plan): Run<InstallResult>
  {
    var target := running.Other();
    if !p.saveOk then Run([], InstallSaveError) else
    var recorded := d.(record := Some(PendingRecord(p, target, Written)));
    if !p.prepareOk then Run([recorded], PrepareError) else
    var prepared := recorded.(env := Baseline(d.env));
    if !p.swapOk then Run([recorded, prepared], SwapError) else
    var armed := prepared.(env := Trial(target));
    if !p.saveSwappedOk then Run([recorded, prepared, armed], InstallSaveError) else
    var swapped := armed.(record := Some(PendingRecord(p, target, Swapped)));
    var done := [recorded, prepared, armed, swapped];
    if p.postHookOk then Run(done, Installed(target))
    else Run(done + Unwind(swapped, running, p), HookFailed)
  }

  function InstallRun(d: Durable, running: Slot, p: Plan): Run<InstallResult> {
    if !p.loadOk then Run([], InstallLoadError)
    else if d.record.Some? then Run([], InFlight)
    else if p.refused then Run([], Refused)
    else
      var writes := SlotWrites(d, running.Other(), p.writes);
      if !p.writeOk then Run(writes, WriteError)
      else if !p.verified then Run(writes, Rejected)
      else
        var rest := Activation(Final(d, writes), running, p);
        Run(writes + rest.effects, rest.result)
  }

  // ---- commit ----

  datatype CommitInput = CommitInput(loadOk: bool, slotOk: bool, platformOk: bool, healthOk: bool,
                                     saveOk: bool, markGoodOk: bool, clearOk: bool,
                                     historyReadable: bool, appendOk: bool)

  datatype CommitResult =
    | CommitLoadError | NothingToCommit | PhaseRefused(phase: Phase) | CommitSlotError | CommitSaveError
    | FellBack | PlatformRejected | Unhealthy | CommitClearError | Committed

  function AppendEntry(d: Durable, readable: bool, entry: Entry, ev: Evidence): Durable {
    var before := if readable then d.history else [];
    d.(history := LastTen(before + [entry]), ledger := d.ledger + [Logged(entry, ev)])
  }

  function MarkFailed(d: Durable, st: State, saveOk: bool, result: CommitResult): Run<CommitResult> {
    if saveOk then Run([d.(record := Some(st.(phase := Failed)))], result) else Run([], CommitSaveError)
  }

  function Finalize(d: Durable, st: State, running: Slot, x: CommitInput): Run<CommitResult> {
    var ev := Evidence(st, running, d.env, x.platformOk, x.healthOk);
    var vouched := d.(vouched := d.vouched + {running});
    var good := if x.markGoodOk then vouched.(env := Permanent(running)) else vouched;
    var first := [vouched] + (if x.markGoodOk then [good] else []);
    if !x.clearOk then Run(first, CommitClearError) else
    var cleared := good.(record := None);
    Run(first + [cleared]
        + (if x.appendOk
           then [AppendEntry(cleared, x.historyReadable, Entry(st.artifact, st.target), ev)] else []),
        Committed)
  }

  function CommitRun(d: Durable, running: Slot, x: CommitInput): Run<CommitResult> {
    if !x.loadOk then Run([], CommitLoadError)
    else if d.record.None? then Run([], NothingToCommit)
    else
      var st := d.record.value;
      if st.phase != Swapped then Run([], PhaseRefused(st.phase))
      else if !x.slotOk then Run([], CommitSlotError)
      else if running != st.target then MarkFailed(d, st, x.saveOk, FellBack)
      else if !x.platformOk then MarkFailed(d, st, x.saveOk, PlatformRejected)
      else if !x.healthOk then MarkFailed(d, st, x.saveOk, Unhealthy)
      else Finalize(d, st, running, x)
  }

  // ---- rollback, switch, mark-good, verify-boot ----

  datatype RollbackInput = RollbackInput(loadOk: bool, slotOk: bool, swapOk: bool, clearOk: bool)

  datatype RollbackResult =
    | RollbackLoadError | NothingToRollBack | RollbackSlotError | RollbackSwapError | RollbackClearError
    | RolledBack(origin: Slot, rebootRequired: bool)

  function RollbackRun(d: Durable, running: Slot, x: RollbackInput): Run<RollbackResult> {
    if !x.loadOk then Run([], RollbackLoadError)
    else if d.record.None? then Run([], NothingToRollBack)
    else if !x.slotOk then Run([], RollbackSlotError)
    else if !x.swapOk then Run([], RollbackSwapError)
    else
      var target := d.record.value.target;
      var repointed := d.(env := Permanent(target.Other()));
      if !x.clearOk then Run([repointed], RollbackClearError)
      else Run([repointed, repointed.(record := None)], RolledBack(target.Other(), running == target))
  }

  datatype SwitchInput = SwitchInput(loadOk: bool, slotOk: bool, prepareOk: bool, swapOk: bool)

  datatype SwitchResult =
    | SwitchLoadError | UpdatePending | SwitchSlotError | AlreadyRunning | SwitchPrepareError | SwitchSwapError
    | SwitchDone

  function SwitchRun(d: Durable, running: Slot, target: Slot, x: SwitchInput): Run<SwitchResult> {
    if !x.loadOk then Run([], SwitchLoadError)
    else if d.record.Some? then Run([], UpdatePending)
    else if !x.slotOk then Run([], SwitchSlotError)
    else if target == running then Run([], AlreadyRunning)
    else if !x.prepareOk then Run([], SwitchPrepareError)
    else
      var prepared := d.(env := Baseline(d.env));
      if !x.swapOk then Run([prepared], SwitchSwapError)
      else Run([prepared, prepared.(env := Permanent(target))], SwitchDone)
  }

  datatype MarkGoodInput = MarkGoodInput(connectorOk: bool, clearOk: bool)

  datatype MarkGoodResult = MarkGoodFailed | MarkGoodClearError | MarkedGood

  function MarkGoodRun(d: Durable, running: Slot, x: MarkGoodInput): Run<MarkGoodResult> {
    if !x.connectorOk then Run([], MarkGoodFailed)
    else
      var vouched := d.(vouched := d.vouched + {running});
      var good := vouched.(env := Permanent(running));
      if !x.clearOk then Run([vouched, good], MarkGoodClearError)
      else Run([vouched, good, good.(record := None)], MarkedGood)
  }

  datatype VerifyInput = VerifyInput(loadOk: bool, healthReadOk: bool, slotOk: bool, saveOk: bool)

  datatype VerifyResult = VerifyResult(confirmed: bool, markedFailed: bool, error: bool)

  function VerifyBootRun(d: Durable, running: Slot, x: VerifyInput): Run<VerifyResult> {
    if !x.loadOk then Run([], VerifyResult(true, false, true))
    else if d.record.None? || d.record.value.phase != Swapped then Run([], VerifyResult(true, false, false))
    else
      var st := d.record.value;
      var flagged := x.healthReadOk && Compromised(d.env, running);
      var fellBack := x.slotOk && running != st.target;
      if !flagged && !fellBack then Run([], VerifyResult(true, false, false))
      else if !x.saveOk then Run([], VerifyResult(!flagged, false, true))
      else Run([d.(record := Some(st.(phase := Failed)))], VerifyResult(!flagged, true, false))
  }
}
