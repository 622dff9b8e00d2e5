/**
 What survives a power cut: the pending-update record, the trial-boot
 environment, the two slot images and the install history. Two further
 components exist only in the model: which slots hold a system somebody vouched
 for, and on what evidence each history entry was written.
 */
module DurableState {
  import opened Basics

  type Image = seq<byte>
  type Digest = seq<byte>

  /** `Unknown` stands for any phase string the tool does not recognise. */
  datatype Phase = Written | Swapped | Failed | Unknown

  datatype Artifact = Artifact(name: string, version: string)

  datatype State = State(phase: Phase, target: Slot, artifact: Artifact,
                         sha256: Digest, bootloaderUpdate: bool)

  /** wendyos_boot_slot, wendyos_upgrade_available, bootcount. */
  datatype Env = Env(boot: Slot, armed: bool, count: nat)

  datatype Entry = Entry(artifact: Artifact, slot: Slot)

  /** Everything a commit looked at before it finalized. */
  datatype Evidence = Evidence(record: State, running: Slot, env: Env, platformOk: bool, healthOk: bool)

  /** Why a slot counts as committed: the commit gates, or the operator's mark-good. */
  datatype Warrant = Gates(evidence: Evidence) | Operator

  datatype Logged = Logged(entry: Entry, evidence: Evidence)

  datatype Durable = Durable(record: Option<State>, env: Env, imageA: Image, imageB: Image,
                             vouched: set<Slot>, history: seq<Entry>, ledger: seq<Logged>) {
    function ImageOf(s: Slot): Image {
      if s == SlotA then imageA else imageB
    }

    function WithImage(s: Slot, img: Image): Durable {
      if s == SlotA then this.(imageA := img) else this.(imageB := img)
    }
  }

  const HISTORY_CAP := 10

  function LastTen<T>(s: seq<T>): seq<T> {
    if |s| > HISTORY_CAP then s[|s| - HISTORY_CAP..] else s
  }

  /** A trial is armed, yet another slot than the requested one is running. */
  predicate Compromised(env: Env, running: Slot) {
    env.armed && env.boot != running
  }

  predicate Passed(ev: Evidence) {
    && ev.record.phase == Swapped
    && ev.record.target == ev.running
    && ev.platformOk
    && ev.healthOk
  }

  predicate Supports(w: Warrant, s: Slot) {
    w.Gates? ==> Passed(w.evidence) && w.evidence.running == s
  }

  /** The first |bytes| bytes of a partition after writing `bytes` at its start. */
  function Overlay(old_: Image, bytes: Image): (img: Image)
    requires |bytes| <= |old_|
    ensures |img| == |old_|
    ensures img[..|bytes|] == bytes
    ensures img[|bytes|..] == old_[|bytes|..]
  {
    bytes + old_[|bytes|..]
  }
}
