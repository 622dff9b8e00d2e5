/**
 The connector for boards whose bootloader keeps a trial boot in its
 environment: U-Boot and GRUB share this logic, only the tool that writes the
 environment differs.
 */
module TrialConnector {
  import opened Basics
  import opened DurableState
  import opened Storage
  import Protocol

  class Controller {
    const disk: Disk
    const running: Slot // the slot mounted at /, fixed for one invocation

    constructor (disk: Disk, running: Slot)
      ensures this.disk == disk && this.running == running
    {
      this.disk, this.running := disk, running;
    }

    /** Clears a stale trial before a fresh slot is armed; the boot slot stays. */
    method PrepareTarget(s: Slot, envOk: bool) returns (ok: bool)
      requires disk.Valid()
      modifies disk
      ensures disk.Valid() && ok == envOk
      ensures disk.Now() == if ok then old(disk.Now()).(env := Protocol.Baseline(old(disk.env))) else old(disk.Now())
      ensures disk.trace == old(disk.trace) + if ok then [disk.Now()] else []
    {
      ok := envOk;
      if ok { disk.WriteEnv(disk.env.(armed := false, count := 0)); }
    }

    /** Install swap: arm a trial of s. Otherwise: a permanent re-point to s. One atomic write either way. */
    method SwapSlot(s: Slot, stagePlatformUpdate: bool, envOk: bool) returns (ok: bool)
      requires disk.Valid()
      modifies disk
      ensures disk.Valid() && ok == envOk
      ensures disk.Now() == if !ok then old(disk.Now()) else
                              old(disk.Now()).(env := if stagePlatformUpdate then Protocol.Trial(s) else Protocol.Permanent(s))
      ensures disk.trace == old(disk.trace) + if ok then [disk.Now()] else []
    {
      ok := envOk;
      if !ok { return; }
      if stagePlatformUpdate {
        disk.WriteEnv(Env(s, true, 0));
      } else {
        disk.WriteEnv(Env(s, false, 0));
      }
    }

    /** Pins the running slot and clears the trial, in one write. */
    method MarkGood(envOk: bool) returns (ok: bool)
      requires disk.Valid()
      modifies disk
      ensures disk.Valid() && ok == envOk
      ensures disk.Now() == if ok then old(disk.Now()).(env := Protocol.Permanent(running)) else old(disk.Now())
      ensures disk.trace == old(disk.trace) + if ok then [disk.Now()] else []
    {
      ok := envOk;
      if ok { disk.WriteEnv(Env(running, false, 0)); }
    }

    /** A trial is armed but another slot than the requested one is running. */
    method BootIsCompromised() returns (flagged: bool)
      ensures flagged == Compromised(disk.env, running)
    {
      if !disk.env.armed { return false; }
      return disk.env.boot != running;
    }
  }
}
