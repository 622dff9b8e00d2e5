# wendyos-update: a verified model

wendyos-update installs A/B system updates on embedded boards: it streams an
artifact onto the inactive rootfs slot, records the pending update in
`state.json`, makes the slot the next boot, and after the reboot commits or
rolls back. Its promise is that a power cut anywhere never leaves a device
without a system to boot. This project models the parts that carry the promise
and proves them.

**The update protocol.** `DurableState`, `Storage` (file `Storage.dfy`),
`TrialConnector`, `BlockDev` and `Engine` are the program: the engine's verbs and
the trial-boot connector (U-Boot and GRUB share it) as classes that write the
disk one durable effect at a time. The disk keeps a ghost trace of every state it
was in. `Protocol` says, per verb, which states those are, as a list; the methods
of `Engine.Updater` are proved to produce exactly that list and result. `Runs`
composes verbs with the bootloader's trial rule, reboots and a power cut after
any number of effects of any verb, and proves the invariant over every run;
`Guarantees` draws the promises from it, and `Outcomes` says of each verb exactly
when it succeeds and what it leaves behind otherwise. Two components exist only in the model:
`vouched`, the slots somebody vouched for (the commit gates or the operator's
mark-good; the first byte written to a slot revokes it), and `ledger`, the
evidence behind each history entry.

**The Jetson connector.** `BootChain` and `TegraController` model `SwapSlot`,
`keepRunningSlot`, the capsule checks, `copyFileSync` and `AbortPlatformUpdate` in
the same way; `OsIndications` the variable that arms a capsule, byte by byte;
`CapsuleGuarantees` what holds at every power-cut point; `PlatformVerify` the
version and ESRT cascade.

**Formats and searches.** `SparseFormat` and `SparseReader` (Android sparse
images, streaming), `LoadOption` (EFI_LOAD_OPTION, section 3.1.3 of UEFI 2.10),
`BootDisk` and `BootTargets` (which ESP the firmware reads capsules from, and
where each kind of boot option leads), `EnvSlots` and
`TegraSlots` (slot to partition), `Artifact` (pack and read), `HookLog` (hook
output to log lines).

What is assumed rather than proved:

- The bootloader: un-armed it boots the boot slot; armed with count 0 it counts
  and boots the boot slot; armed with a count it boots the other slot and leaves
  the environment alone (`internal/connector/grubenv/grubenv.go:13-31`,
  `internal/connector/grubenv/grubenv.go:416-422`).
- The Jetson firmware: a boot-chain request wins and cancels a capsule, else an
  armed capsule flips the chain, else the current chain boots
  (`internal/connector/tegrauefi/swap-slot.go:6-13`,
  `internal/connector/tegrauefi/bootchain_state.go:17-62`).
- An environment write, a rename of `state.json` and an efivar write are each one
  durable effect. On the vfat ESP a rename is durable only after syncfs.
- A system that was vouched for comes up when booted; one that was not may or may
  not.
- The caller reboots when told to before the next install, and switches only to a
  slot that holds a committed system (`docs/cli-contract.md:10-13`).
- Which outside calls succeed (reads, writes, mounts, nvbootctrl, hooks) is an
  input of every operation, and a device may stop taking bytes anywhere. A theorem
  that fixes such an answer names it; the ones about undisturbed runs fix them all.

Where the natural statement is false of the code, the code is kept and the exact
condition proved, with a witness where the failure is not plain:

- `InstallSafeIffNextBootIsRunning`: install never looks at the next-boot slot.
- `CommitSafeIffMarkGoodSticks`, `UnwindSafeIffRepointSticks`: a failed connector
  write is logged and the record cleared all the same.
- `WrittenRunsTargetIffCutAfterArming`, `WrittenRunsTargetIffArmed`: a written
  record does not imply that the origin runs (`WrittenWhileTargetRuns`).
- `SwapMakesSlotNext`: the capsule way needs the booted chain to be the other
  slot's (`UncoupledChainMissesTheSlot`).
- `RequestLeftIffNotWithdrawable`, `RollbackLeavesRequestIffNotWithdrawable`:
  see below.
- `SecondVerdictAgrees`: the saved bootloader version is deleted on success.
- `ReadingInvertsWriting`, `FileExpands`: chunk outputs of 2^63 bytes or more.
- `CompleteIffStored`: a chunk to be skipped may declare fewer bytes than its own
  header, and then nothing is skipped.
- `NamedAnswerIffNamePresent`: a missing GPT name falls through to udev links.
- `InsertingNowhereChangesNothing`: an ESP without a parent disk is taken for the
  target of any option that leads nowhere (`ParentlessEspIsAccepted`).
- `PackedReadsBack`: a payload stored as `manifest.sig`, a name that JSON cannot
  carry, and a manifest over 4 MiB are packed but cannot be read.

The interface comment of the rollback swap says that for the running slot a
pending switch is cancelled (`internal/connector/connector.go:64-67`). The code
does that only on Thor and Orin, only on the running slot's own chain, with
readable boot-chain variables, no switch being judged, no capsule armed and a
removal that works; otherwise it re-points, which leaves a request for the running
slot. `docs/connector-architecture.md:34` names most of these cases. The model
follows the code, and `RequestLeftIffNotWithdrawable` states the whole condition.

## Model

| member | source | states |
|---|---|---|
| Runs.EveryRunKeeps | internal/engine/engine.go:67-234 | over every run of install, commit, rollback, switch, mark-good, verify-boot, boots and power cuts between any two durable effects: either nothing is armed and the boot slot is committed, or the armed slot is the pending record's target and the other slot is committed; origin committed, payload in place, history sound |
| Runs.StepKeeps | internal/engine/commit.go:36-284 | one verb cut after any number of effects, or one boot, keeps that invariant |
| Runs.InstallKeeps | internal/engine/engine.go:144-234 | the same at every point of an install, its unwind included, given that the running slot is the next boot |
| Runs.FinalizeKeeps | internal/engine/commit.go:99-124 | the same at every point of the finalizing half of commit |
| Runs.RollbackKeeps | internal/engine/commit.go:143-185 | the same at every point of rollback |
| Runs.SwitchKeeps | internal/engine/commit.go:195-223 | the same at every point of a switch to a committed slot |
| Guarantees.EveryRunIsSafe | docs/state-schema.md:33-44 | from the factory state no run reaches a state without a committed system to boot, and every history entry stems from a commit that passed all gates on an unflagged boot |
| Guarantees.TwoBootsSuffice | internal/connector/grubenv/swap-slot.go:33-46 | of any two consecutive boots from a reachable state one comes up, and the second is on a committed slot if the first is not up |
| Guarantees.PendingMeansPayload | internal/engine/engine.go:169-191 | until the target is first booted, a pending record implies that the target slot starts with bytes of the recorded digest |
| Guarantees.InstallSparesTheRunningSlot | internal/engine/engine.go:90-98 | no state of an install changes the running slot's image |
| Guarantees.OnlyInstallWritesSlots | internal/engine/commit.go:143-223 | no other verb changes any slot's image |
| Guarantees.UndisturbedUpdateCommits | internal/engine/commit.go:99-124 | install, boot, verify, commit without disturbance ends un-armed on the committed target with one more history entry and the origin still committed |
| Guarantees.DeadTargetReturnsToOrigin | internal/engine/commit.go:232-284 | a target that never comes up: the second boot runs the origin, the verifier marks the record failed, a rollback restores rest without a reboot |
| Guarantees.InstallSafeIffNextBootIsRunning | internal/engine/engine.go:87-94 | every state of an install that writes is safe if and only if the next boot slot is the running one |
| Guarantees.InstallAfterSwitchBricks | internal/engine/commit.go:187-223 | the concrete run that fails: switch, install without a reboot, a cut during the write |
| Guarantees.CommitSafeIffMarkGoodSticks | internal/engine/commit.go:101-111 | a reported commit leaves a safe state if and only if mark-good worked or no trial was armed |
| Guarantees.ForgottenMarkGoodUndoesCommit | internal/engine/commit.go:101-111 | otherwise the next boot is the origin although the record is gone |
| Guarantees.UnwindSafeIffRepointSticks | internal/engine/engine.go:211-226 | the unwind after a failed post-install hook ends safe if and only if the re-point worked or the record stayed |
| Guarantees.WrittenWhileTargetRuns | internal/engine/engine.go:202-209 | a cut between the swap and the second save boots the target under a written record, which commit refuses; the origin stays committed |
| Guarantees.WrittenRunsTargetIffCutAfterArming | internal/engine/engine.go:186-209 | of all the cuts of a finished install, exactly that one leads there |
| Guarantees.WrittenRunsTargetIffArmed | internal/engine/engine.go:186-226 | for every legal install, finished, failed or unwound, cut anywhere, the next boot runs the target under a written record if and only if a written record was left beside an armed trial |
| Guarantees.CommitCutAnywhere | internal/engine/commit.go:99-124 | a commit on a trial that passes its gates, whichever of its later calls fail, cut after any number of effects, then a boot: fallback, marked failed by the verifier however it learns of it; or the target pinned, left alone by the verifier and finished by a second commit with one entry; or at rest on the target, at most the entry missing |
| Guarantees.RollbacksConverge | internal/engine/commit.go:143-185 | under any mix of cut, failed and repeated rollbacks, boots and boot verifications the deployment stays recorded or the origin is the permanent next boot; history and committed slots stay |
| Guarantees.RollbackFinishes | internal/engine/commit.go:143-185 | after them one undisturbed rollback ends with no record, un-armed, origin next, and a reboot required exactly when the target runs |
| Guarantees.FailedIsAbsorbing | internal/engine/commit.go:45-54 | a failed deployment stays failed over every run without rollback or mark-good |
| Guarantees.HistoryGrowsByCommitsOnly | internal/engine/commit.go:107-117 | a step adds an entry only as the last effect of a commit with phase swapped, target running, all gates passed |
| Guarantees.HistoryIsLastTen | internal/engine/commit.go:304-324 | while the file stays readable the history is the last ten entries ever appended, over every run |
| Guarantees.VerdictsAgree | internal/connector/ubootenv/verify.go:23-48 | on reachable armed states the connector's fallback verdict equals the comparison of running slot and target |
| Guarantees.VerifierMarksExactlyFallbacks | internal/engine/commit.go:232-284 | the boot verifier fails a deployment exactly when it is swapped and its target does not run, changes nothing else, and withholds the confirmation only then |
| Guarantees.HonestPlansFit | internal/engine/engine.go:144-178 | what the install method does to the slot is what the runs assume about an install |
| Outcomes.InstallSucceedsIff | internal/engine/engine.go:67-234 | an install succeeds if and only if every gate, the verification and every later call do; then the record is swapped for this artifact and target and the trial is armed with count 0 |
| Outcomes.UnverifiedInstallLeavesNoTrace | internal/engine/engine.go:140-178 | an install that is not admitted does nothing; one that does not verify, or cannot record, changes neither record nor environment at any point |
| Outcomes.InterruptedInstallEnds | internal/engine/engine.go:178-226 | what is recorded and armed after each later failure, the unwind included |
| Outcomes.EnvironmentWaitsForRecord | internal/engine/engine.go:169-209 | the environment is not touched before the record is durable |
| Outcomes.CommitSucceedsIff | internal/engine/commit.go:36-124 | a commit succeeds if and only if the deployment is swapped, its target runs, both checks pass and the record can be cleared; then the target is pinned and the entry added |
| Outcomes.FailedGateMarksFailed | internal/engine/commit.go:64-97 | a wrong slot, a failed platform check or a failed health check marks the deployment failed and changes nothing else |
| Outcomes.FailedGateIsFinal | internal/engine/commit.go:45-97 | after that no commit succeeds, over every run without rollback or mark-good |
| Outcomes.UnjudgedCommitChangesNothing | internal/engine/commit.go:36-63 | a commit without a readable, swapped record or without a current slot changes nothing |
| Outcomes.LatestTenAreKept | internal/engine/commit.go:304-314 | the history keeps ten entries, the latest |
| Outcomes.RollbackSucceedsIff | internal/engine/commit.go:143-185 | exactly when a rollback succeeds, with its whole final state; a failed one keeps the record |
| Outcomes.SwitchSucceedsIff | internal/engine/commit.go:195-223 | exactly when a switch succeeds, with its whole final state; a pending record stops it without effect |
| Outcomes.MarkGoodSucceedsIff | internal/engine/engine.go:323-328 | exactly when mark-good succeeds: the running slot pinned, the record gone; a failed connector changes nothing |
| Outcomes.VerifierOutcome | internal/engine/commit.go:232-284 | for every combination of readable inputs, when the verifier fails a deployment, withholds the confirmation, or errs |
| Engine.Updater.Install | internal/engine/engine.go:67-234 | performs exactly the specified effects; the slot only ever holds prefixes of the stream; it succeeds if and only if the payload arrives in full, fits, matches size and both digests, and every other call works, and then record and trial are in place |
| Engine.Updater.WriteAndVerify | internal/engine/engine.go:140-168 | passes exactly the payloads that arrive in full, fit, and match size and digests, and then the payload starts the slot |
| Engine.Updater.Commit | internal/engine/commit.go:36-124 | performs exactly the specified effects |
| Engine.Updater.Finish | internal/engine/commit.go:99-124 | the finalizing half, in the source's order; it vouches for the running slot, for which every gate must be passed |
| Engine.Updater.Rollback | internal/engine/commit.go:143-185 | performs exactly the specified effects and reports the origin and the reboot |
| Engine.Updater.Switch | internal/engine/commit.go:195-223 | performs exactly the specified effects; refuses while an update is pending or on the running slot |
| Engine.Updater.MarkGood | internal/engine/engine.go:323-328 | connector first, then the record |
| Engine.Updater.VerifyBoot | internal/engine/commit.go:232-284 | performs exactly the specified effects and confirmation |
| BlockDev.WriteImage | internal/blockdev/blockdev.go:37-84 | for every chunking, buffering and device failure: every content the device ever has is a prefix of the stream over its old content; success exactly when open and sync work, the source ends, and the device takes all its bytes; then count and digest are the stream's and the stream sits on the device |
| TrialConnector.Controller.PrepareTarget | internal/connector/ubootenv/swap-slot.go:26-34 | disarms and zeroes the counter, the boot slot stays |
| TrialConnector.Controller.SwapSlot | internal/connector/grubenv/swap-slot.go:47-76 | one atomic write: a trial for an install, a permanent re-point otherwise |
| TrialConnector.Controller.MarkGood | internal/connector/grubenv/swap-slot.go:81-95 | one atomic write pins the running slot and clears the trial |
| CapsuleGuarantees.EveryRunKeepsCapsuleSafe | internal/connector/tegrauefi/swap-slot.go:139-160 | over every run of swaps, aborts, cuts and boots, an armed OsIndications bit implies a complete capsule at the destination, which is never half-written |
| CapsuleGuarantees.CopyKeeps | internal/connector/tegrauefi/swap-slot.go:314-378 | at every point of staging, a first one or a re-staging; on success exactly the new capsule is durable |
| CapsuleGuarantees.AbortKeeps | internal/connector/tegrauefi/verify.go:150-176 | at every point of an abort: disarmed before the file goes |
| CapsuleGuarantees.StagedCapsule | internal/connector/tegrauefi/swap-slot.go:113-159 | the capsule path ends armed with the whole capsule durable and no boot-chain request beside it |
| CapsuleGuarantees.SwapMakesSlotNext | internal/connector/tegrauefi/swap-slot.go:47-160 | a successful swap to s makes s the chain that boots next, in all four ways, on the capsule way if and only if the booted chain is the other slot's |
| CapsuleGuarantees.InstallSwapArmsIffMarkedAndValidated | internal/connector/tegrauefi/swap-slot.go:85-160 | a successful install swap stages and arms a capsule if and only if the image has the marker and the chip is Thor or Orin, and records the present version with it; otherwise it re-points and stages nothing |
| CapsuleGuarantees.InstallSwapSucceedsIff | internal/connector/tegrauefi/swap-slot.go:71-160 | exactly when an install swap succeeds, on either way |
| CapsuleGuarantees.RollbackSwapSucceedsIff | internal/connector/tegrauefi/swap-slot.go:48-66 | exactly when a rollback swap succeeds |
| CapsuleGuarantees.CopySucceedsIff | internal/connector/tegrauefi/swap-slot.go:334-378 | exactly when the copy succeeds; one that does not reach the rename leaves the destination, and no temporary file stays |
| CapsuleGuarantees.AbortOutcome | internal/connector/tegrauefi/verify.go:150-176 | an abort succeeds exactly when the bit ends up clear, keeps the other bits, and forgets version and file as far as they can be removed |
| CapsuleGuarantees.UncoupledChainMissesTheSlot | internal/connector/tegrauefi/swap-slot.go:6-13 | the witness: with the chain of the target already booted the capsule boots the other one |
| CapsuleGuarantees.KeepingIsRepointing | internal/connector/tegrauefi/bootchain_state.go:17-75 | withdrawing a request and re-pointing to the running slot boot the same chain |
| CapsuleGuarantees.RequestLeftIffNotWithdrawable | internal/connector/tegrauefi/bootchain_state.go:21-75 | after a successful rollback swap to s no request is left if and only if s runs on Thor or Orin, on its own chain, with no switch being judged, no capsule armed and a removal that works; otherwise a request for s is |
| CapsuleGuarantees.ArmedCapsuleLeavesRequest | internal/connector/tegrauefi/swap-slot.go:48-66 | the witness: on Thor, on the running slot, with a capsule armed |
| CapsuleGuarantees.RollbackLeavesRequestIffNotWithdrawable | internal/engine/commit.go:162-175 | for the whole pre-reboot rollback, which disarms first, the capsule drops out of that condition, and the origin boots next either way |
| CapsuleGuarantees.InstallThenRollbackIsIdle | internal/connector/tegrauefi/bootchain_state.go:21-100 | on Thor and Orin, from rest, an install stopped after any effect and rolled back before the reboot is at rest again with the same OsIndications value, so the next capsule install is not refused |
| TegraController.Controller.SwapSlot | internal/connector/tegrauefi/swap-slot.go:47-160 | performs exactly the specified effects |
| TegraController.Controller.StageCapsule | internal/connector/tegrauefi/swap-slot.go:113-159 | checks, saved version, copy, boot attempt, arming, in this order |
| TegraController.Controller.CopyFileSync | internal/connector/tegrauefi/swap-slot.go:334-378 | temporary file, fsync, rename, syncfs; a failure before the rename leaves the destination |
| TegraController.Controller.KeepRunningSlot | internal/connector/tegrauefi/bootchain_state.go:21-75 | withdraws the request exactly when the running slot boots next without it |
| TegraController.Controller.CheckCapsuleBootChainIdle | internal/connector/tegrauefi/bootchain_state.go:81-100 | idle exactly when request, status and BootNext are all absent |
| TegraController.Controller.AbortPlatformUpdate | internal/connector/tegrauefi/verify.go:153-176 | performs exactly the specified effects |
| OsIndications.SetArms | internal/connector/tegrauefi/efivar.go:175-203 | for every prior content: armed afterwards, the other 63 bits unchanged |
| OsIndications.ClearDisarms | internal/connector/tegrauefi/efivar.go:144-171 | for every prior content: disarmed afterwards, the other 63 bits unchanged |
| OsIndications.SetThenClear | internal/connector/tegrauefi/efivar.go:144-203 | arming and disarming an un-armed variable restores its value |
| OsIndications.FreshVariable | internal/connector/tegrauefi/efivar.go:175-203 | what is written over an absent variable, byte by byte |
| OsIndications.SetCapsuleBit | internal/connector/tegrauefi/efivar.go:175-190 | the twelve bytes written are the little-endian value with bit 2 set |
| OsIndications.ClearCapsuleBit | internal/connector/tegrauefi/efivar.go:144-171 | nothing is written unless the bit is set; then the value without it |
| PlatformVerify.SecondVerdictAgrees | internal/connector/tegrauefi/verify.go:92-148 | a second check agrees with the first if and only if the first did not pass on a version change that the ESRT contradicts |
| PlatformVerify.VerdictIff | internal/connector/tegrauefi/verify.go:92-148 | with the marker an update is refused exactly when no version change is visible and the ESRT is unintelligible, 1 to 6, or in the vendor range; only a refusal keeps the saved version |
| PlatformVerify.SecondVerdictCanDiffer | internal/connector/tegrauefi/verify.go:100-112 | the witness: version changed, ESRT 6163 |
| PlatformVerify.Controller.VerifyPlatformUpdate | internal/connector/tegrauefi/verify.go:92-148 | the cascade's verdict and what it leaves of the saved version |
| SparseFormat.ReadingInvertsWriting | internal/artifact/sparse.go:114-215 | a stored image, whatever follows it, expands to its meaning and a bare end of file if and only if every chunk's output fits an int64 |
| SparseFormat.UncountableChunkVanishes | internal/artifact/sparse.go:139-141 | the witness: a longer chunk expands to nothing, without an error |
| SparseFormat.TruncationIsNoticed | internal/artifact/sparse.go:114-190 | an image cut short anywhere gives a front part of its output and an error, never a bare end of file |
| SparseFormat.FileTruncationIsNoticed | internal/artifact/sparse.go:84-190 | the same for a whole file, cut in its header, its extra header bytes or its chunks |
| SparseFormat.CompleteIffStored | internal/artifact/sparse.go:114-190 | data is read to a bare end of file, by chunks no smaller than their headers, if and only if it stores that many well-formed chunks, and then the output is theirs |
| SparseFormat.ImageSize | internal/artifact/sparse.go:128-177 | an image is as long as the sum of its chunks' block counts times the block size |
| SparseFormat.FillBegins | internal/artifact/sparse.go:192-203 | a fill begins with its pattern, in order, and goes on the same way |
| SparseFormat.ChunkMeanings | internal/artifact/sparse.go:128-215 | a fill chunk is whole copies of its pattern, a skipped one zeros, a raw one its data, a checksum nothing |
| SparseFormat.ChunkHeaderBytes | internal/artifact/sparse.go:20-47 | a chunk header in bytes, with the kinds of the format |
| SparseFormat.OpenRefuses | internal/artifact/sparse.go:84-112 | without magic, a whole header or a block size in words nothing is read |
| SparseFormat.FileExpands | internal/artifact/sparse.go:84-112 | a whole file with any declared header size expands to the meaning of its chunks if and only if the block size is a multiple of four and every chunk's output fits an int64 |
| SparseReader.Reader.Read | internal/artifact/sparse.go:114-126 | for every buffer size and short source reads: the next bytes of the expansion, the rest still pending; a bare end of file only when nothing is pending |
| SparseReader.Reader.NextChunk | internal/artifact/sparse.go:128-177 | starts the next chunk without changing what is pending, or reports it broken |
| SparseReader.Reader.DoEmitFill | internal/artifact/sparse.go:192-203 | the pattern continues across reads at its phase |
| SparseReader.NewReader | internal/artifact/sparse.go:84-112 | accepts exactly the openable headers and then owes the whole expansion |
| SparseReader.CopyAll | internal/artifact/writer.go:89-92 | a copy with any sequence of buffer sizes yields the whole expansion and succeeds exactly when it is complete |
| LoadOption.ParseInvertsEncode | internal/connector/tegrauefi/bootdisk.go:221-250 | parsing inverts serialization for all attributes, descriptions, first paths, further paths and optional data |
| LoadOption.AcceptedContainsItsNodes | internal/connector/tegrauefi/bootdisk.go:221-250 | whatever is accepted consists of its attributes, a well-formed description up to the first terminator, and right behind it the serialized nodes and an end node |
| LoadOption.SampleOption | internal/connector/tegrauefi/bootdisk.go:221-250 | a small option in bytes and its parse |
| LoadOption.ParseLoadOption | internal/connector/tegrauefi/bootdisk.go:221-250 | the loops compute that parse on every byte string, in range |
| BootDisk.AcceptedIffFirstReachesRoot | internal/connector/tegrauefi/bootdisk.go:45-56 | the walk accepts if and only if the first option that leads anywhere leads to the root's disk |
| BootDisk.CapsuleDiskAcceptedIff | internal/connector/tegrauefi/bootdisk.go:29-57 | the check accepts an ESP if and only if no other disk carries one, or BootNext and BootOrder can be read and lead to it first |
| BootDisk.StoredOrderDecides | internal/connector/tegrauefi/bootdisk.go:29-92 | in terms of the stored entries: with ESPs on other disks, the one-time choice decides before the order |
| BootDisk.OptionTargetIsEspDisk | internal/connector/tegrauefi/bootdisk.go:94-158 | an option leads nowhere or to a disk with an ESP |
| BootDisk.InsertingNowhereChangesNothing | internal/connector/tegrauefi/bootdisk.go:45-56 | for a disk with a name, options that lead nowhere may stand anywhere in the order |
| BootDisk.ParentlessEspIsAccepted | internal/connector/tegrauefi/bootdisk.go:45-50 | the witness for the name: an empty disk path equals the target of an option that leads nowhere |
| BootDisk.InactiveLeadsNowhere | internal/connector/tegrauefi/bootdisk.go:97-117 | absent, inactive and legacy options lead nowhere, whatever else they hold |
| BootTargets.PartitionOptionReachesItsEsp | internal/connector/tegrauefi/bootdisk.go:118-129 | an active option with a GPT node leads to the disk of the ESP with that GUID whatever its other nodes, to none without such an ESP |
| BootTargets.NvmeOptionReachesItsDisk | internal/connector/tegrauefi/bootdisk.go:130-184 | an NVMe option leads to the one disk with that namespace and EUI if it has an ESP; several cannot be told apart |
| BootTargets.CardOptionReachesItsDisk | internal/connector/tegrauefi/bootdisk.go:130-199 | an eMMC or SD option leads to the one card of its type |
| BootTargets.NetworkOptionReachesNoDisk | internal/connector/tegrauefi/bootdisk.go:139-141 | network nodes and firmware applications lead nowhere |
| BootTargets.UnknownBusReachesNoKnownDisk | internal/connector/tegrauefi/bootdisk.go:151-158 | any other option leads nowhere unless some ESP is on a disk that is neither NVMe nor MMC |
| BootTargets.UnreadableIsUndecidable | internal/connector/tegrauefi/bootdisk.go:96-112 | an absent option leads nowhere, an unreadable or malformed one stops the check |
| BootTargets.VerdictNamesTheTellingOption | internal/connector/tegrauefi/bootdisk.go:45-56 | every verdict comes from the first option that does not lead nowhere, and names it and its disk |
| BootTargets.NothingTellsMeansNoOption | internal/connector/tegrauefi/bootdisk.go:45-57 | without such an option the check refuses for want of one |
| BootTargets.EspIff | internal/connector/tegrauefi/bootdisk.go:59-72 | which disks have a firmware ESP |
| BootTargets.WrittenIsStored | internal/connector/tegrauefi/bootdisk.go:96-117 | every written active option is read back with its nodes |
| BootTargets.EspTypePrints | internal/connector/tegrauefi/bootdisk.go:252-259 | the ESP type GUID as stored and as printed |
| BootTargets.NvmeDiskNames | internal/connector/tegrauefi/bootdisk.go:21-22 | which names are NVMe disks, and that partitions are not |
| BootDisk.CheckFirmwareCapsuleDisk | internal/connector/tegrauefi/bootdisk.go:29-57 | the loop's verdict is that of the walk |
| BootDisk.BootOptionDisk | internal/connector/tegrauefi/bootdisk.go:96-158 | the loops find the option's target |
| BootDisk.BootOptionOrder | internal/connector/tegrauefi/bootdisk.go:74-92 | BootNext, then BootOrder, or an error |
| BootDisk.WordsInvertUnwords | internal/connector/tegrauefi/bootdisk.go:88-91 | every stored order is read back entry by entry |
| BootDisk.FormatGuidInjective | internal/connector/tegrauefi/bootdisk.go:252-259 | GUIDs that print alike are equal |
| EnvSlots.OtherDisksDoNotMatter | internal/connector/ubootenv/ubootenv.go:386-510 | partition lists that agree on the boot disk give the same current slot and the same partitions |
| EnvSlots.ScopedScanAgrees | internal/connector/grubenv/grubenv.go:308-346 | scanning the boot disk alone gives the same partitions as scanning every disk |
| EnvSlots.ScopedCurrentSlotAgrees | internal/connector/grubenv/grubenv.go:422-458 | and the same current slot |
| EnvSlots.MbrIgnoresLabels | internal/connector/ubootenv/ubootenv.go:307-339 | on a U-Boot boot disk without partlabels no filesystem label changes an answer |
| EnvSlots.NamedAnswerIffNamePresent | internal/connector/ubootenv/ubootenv.go:418-455 | with names the answer is independent of the udev links if and only if the boot disk carries the slot's name |
| EnvSlots.TargetIsNotTheRunningRoot | internal/connector/grubenv/grubenv.go:386-410 | the partition found on the boot disk for the other slot is not the running root |
| EnvSlots.CurrentSlotIff | internal/connector/ubootenv/ubootenv.go:462-510 | the current slot is the one the root's own row declares by name or number; failing that, the first whose partition is the root |
| EnvSlots.RootRowIff | internal/connector/ubootenv/ubootenv.go:376-397 | the running root's row is the one listed for the mounted device |
| EnvSlots.FoundPartitionIsTheSlots | internal/connector/ubootenv/ubootenv.go:418-455 | a partition that carries the slot's name, or without names its number, is found whenever the boot disk has one; otherwise only a board with names looks further |
| EnvSlots.UnlistedRootUsesLinks | internal/connector/ubootenv/ubootenv.go:447-455 | a root that is not listed leaves the udev links, GPT names first |
| EnvSlots.NumberRead | internal/connector/ubootenv/ubootenv.go:331-346 | a number is read off the device path with or without a p |
| EnvSlots.ResolvePartition | internal/connector/ubootenv/ubootenv.go:418-455 | the searches compute PartitionFor, for both boards |
| EnvSlots.ResolveCurrentSlot | internal/connector/ubootenv/ubootenv.go:462-510 | the searches compute CurrentSlot, for both boards |
| TegraSlots.CurrentSlotIsTheRoot | internal/connector/tegrauefi/storage.go:279-302 | with a known disk the firmware's slot resolves to the running root or not at all |
| TegraSlots.OtherSlotIsAnotherDevice | internal/connector/tegrauefi/storage.go:315-334 | the other slot resolves to a partition of the same disk with another device identity |
| TegraSlots.SlotsNeverCoincide | internal/connector/tegrauefi/storage.go:197-348 | the two slots never share a device identity, by label and by number alike |
| TegraSlots.SlotBFollowsSlotA | internal/connector/tegrauefi/storage.go:315-348 | without labels, B's partition is the one right behind A's, whichever runs and however the numbers are spelled |
| TegraSlots.UnlabelledResolvesIff | internal/connector/tegrauefi/storage.go:315-334 | without labels a slot resolves to exactly the root, or the usable partition next to it on the side of its letter |
| TegraSlots.LabelledResolvesIff | internal/connector/tegrauefi/storage.go:277-302 | with labels, exactly to the disk's only usable partition of the slot's label, if the root carries the firmware slot's |
| TegraSlots.NoDiskResolvesIff | internal/connector/tegrauefi/storage.go:249-262 | without a known disk, exactly to the only partition of that label anywhere |
| TegraSlots.SplitInvertsJoin | internal/connector/tegrauefi/storage.go:336-348 | a device path is taken apart the way it is put together |
| TegraSlots.RootFoundIff | internal/connector/tegrauefi/storage.go:195-222 | exactly when the running root and its disk are found |
| TegraSlots.NeighbourIsAnotherPath | internal/connector/tegrauefi/storage.go:336-348 | the adjacent number names another path, however the root's own number is spelled |
| TegraSlots.ResolveSlot | internal/connector/tegrauefi/storage.go:277-302 | the searches compute slotPartition |
| TegraSlots.LocateRoot | internal/connector/tegrauefi/storage.go:195-222 | finds the one row with the root's identity and its one disk, or refuses |
| Artifact.PackedReadsBack | internal/artifact/writer.go:36-144 | a packed artifact verifies and reads back as the raw image if and only if its stored name is not manifest.sig and survives JSON and its manifest is at most 4 MiB; otherwise it does not verify |
| Artifact.SparseReadsBackExpanded | cmd/wendyos-update/pack.go:84-115 | packing a sparse image and reading it back yields the image its chunks describe, if and only if the artifact is readable in that sense and every output fits an int64 |
| Artifact.ReservedNameNeedsNoCompression | internal/artifact/writer.go:146-159 | that name arises only from an uncompressed image of that name |
| Artifact.VerifiedIsAsDeclared | internal/artifact/reader.go:32-106 | whatever verifies has the size and both digests its manifest declares, behind at most reserved members |
| Artifact.TamperedPayloadIsRefused | internal/artifact/reader.go:91-106 | a packed artifact with other payload bytes of another digest is refused |
| Artifact.UnexpectedMemberIsRefused | internal/artifact/reader.go:62-86 | and one with another member before the payload |
| Artifact.PackSucceedsIff | internal/artifact/writer.go:36-144 | exactly when packing succeeds |
| Artifact.StoredNames | internal/artifact/writer.go:146-159 | the stored name is that of the raw image with the compression as suffix |
| Artifact.Pack | internal/artifact/writer.go:36-144 | expands, compresses, digests and stores manifest first |
| Artifact.Reader.TakePayload | internal/artifact/reader.go:62-86 | the payload behind any reserved members, once, teed into the digest |
| Artifact.VerifyPacked | cmd/wendyos-update/pack.go:84-115 | returns the plain image exactly when size and digests agree with the manifest |
| HookLog.LogHook | internal/engine/hooks.go:108-116 | however a hook's output is cut into writes, the log holds the lines of the whole output |
| HookLog.Writer.Write | internal/engine/hooks.go:149-160 | keeps exactly the complete lines logged and the rest buffered |
| HookLog.Writer.Flush | internal/engine/hooks.go:162-175 | ends with the newline split of everything written, carriage returns trimmed, empty lines dropped |
| HookLog.LinesAreCompleteAndTail | internal/engine/hooks.go:137-175 | the lines of an output are those already ended by a newline and the remainder |
| HookLog.JoinInvertsSplit | internal/engine/hooks.go:149-160 | the pieces joined by newlines are the output and hold no newline |
| HookLog.TrimTakesReturns | internal/engine/hooks.go:168-175 | trimming takes off all trailing carriage returns and nothing else |
| HookLog.LoggedInOrder | internal/engine/hooks.go:149-175 | the trimmed pieces are logged in order, the empty ones are not |

## Left out

- Garbled `state.json` and target slots other than 0 and 1: the record is absent, readable or unreadable, and names one of the two slots; the program itself writes nothing else.
- A `bootlimit` above 1: the trial rule is the one the GRUB connector states; U-Boot boards may configure more attempts.
- The gates of install before the first write (manifest, device, version, slot and partition lookup, preflight, capacity, pre-install hook): one input says whether any refused, since none leaves a durable effect.
- bufio.Writer's exact flush points: the buffer drains at arbitrary moments, which covers them; its size is not fixed to 1 MiB.
- Digests in mixed letter case: compared as they stand, the reader folds case.
- Engine on Jetson: the run theorem is over the trial connector; the Jetson connector has its own runs of swaps, aborts and boots, and the pre-reboot rollback as a composition.
- Jetson `PrepareTarget`, `MarkGood`, `ConfirmBoot`, `BootIsCompromised`: resets and reads of one status variable each.
- ESP free space, redundancy preflight, private ESP mounts, `topMount`: single-branch checks on the running system.
- sysfs and lsblk text: resolution starts from structured rows; the `LABEL` lookup that also matches inside `PARTLABEL` is not modelled.
- `memberName`: tar members carry their normalized names.
- JSON, tar, zstd, gzip, SHA-256: codecs and hash are parameters with an inverse law; JSON is one that returns a manifest with its strings as text, ASCII unharmed; tar members keep their names.
- Hook execution order and environment, HTTP, CLI, status output, logging, connector registry, version comparison: not modelled.
- GrubEnv status snapshots: read-only caching for display.
- AppendEntry: the timestamp of an entry and of a record is not modelled.
