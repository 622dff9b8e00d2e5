/** The Jetson connector: efivars and the ESP, written one durable effect at a time. */
module TegraController {
  import opened Basics
  import opened LittleEndian
  import opened BootChain
  import OsIndications

  class Board {
    var next: Var
    var current: Var
    var status: Var
    var osi: Var
    var bootNext: Var
    var capsule: Option<seq<byte>>
    var tmp: Option<Staged>
    var attempted: Option<Slot>
    var versionBefore: Option<string>
    ghost var afterCut: set<Option<seq<byte>>>
    ghost var whole: set<seq<byte>>
    ghost var trace: seq<Platform>

    ghost function Now(): Platform
      reads this
    {
      Platform(next, current, status, osi, bootNext, capsule, afterCut, tmp, whole, attempted, versionBefore)
    }

    ghost predicate Valid()
      reads this
    {
      trace != [] && trace[|trace| - 1] == Now()
    }

    method WriteNext(v: Var)
      requires Valid()
      modifies this
      ensures Valid() && Now() == old(Now()).(next := v) && trace == old(trace) + [Now()]
    {
      next := v;
      trace := trace + [Now()];
    }

    method WriteOsi(v: Var)
      requires Valid()
      modifies this
      ensures Valid() && Now() == old(Now()).(osi := v) && trace == old(trace) + [Now()]
    {
      osi := v;
      trace := trace + [Now()];
    }

    method RecordAttempt(s: Slot)
      requires Valid()
      modifies this
      ensures Valid() && Now() == old(Now()).(attempted := Some(s)) && trace == old(trace) + [Now()]
    {
      attempted := Some(s);
      trace := trace + [Now()];
    }

    method WriteVersion(v: Option<string>)
      requires Valid()
      modifies this
      ensures Valid() && Now() == old(Now()).(versionBefore := v) && trace == old(trace) + [Now()]
    {
      versionBefore := v;
      trace := trace + [Now()];
    }

    /** Removes the temporary file; `data` is the complete file about to be staged or just given up. */
    method RemoveTmp(ghost data: seq<byte>)
      requires Valid()
      modifies this
      ensures Valid() && Now() == old(Now()).(tmp := None, whole := old(whole) + {data}) && trace == old(trace) + [Now()]
    {
      tmp, whole := None, whole + {data};
      trace := trace + [Now()];
    }

    method WriteTmp(t: Staged)
      requires Valid()
      modifies this
      ensures Valid() && Now() == old(Now()).(tmp := Some(t)) && trace == old(trace) + [Now()]
    {
      tmp := Some(t);
      trace := trace + [Now()];
    }

    /** Visible at once, durable only later: until syncfs a cut may leave the old file or the new one. */
    method RenameTmp()
      requires Valid() && tmp.Some?
      modifies this
      ensures Valid() && Now() == Renamed(old(Now())) && trace == old(trace) + [Now()]
    {
      afterCut := afterCut + Surviving(tmp.value);
      capsule, tmp := Some(tmp.value.data), None;
      trace := trace + [Now()];
    }

    method SyncFs()
      requires Valid()
      modifies this
      ensures Valid() && Now() == Synced(old(Now())) && trace == old(trace) + [Now()]
    {
      afterCut := {capsule};
      trace := trace + [Now()];
    }

    method RemoveCapsule()
      requires Valid()
      modifies this
      ensures Valid() && Now() == old(Now()).(capsule := None, afterCut := old(afterCut) + {None})
      ensures trace == old(trace) + [Now()]
    {
      capsule, afterCut := None, afterCut + {None};
      trace := trace + [Now()];
    }
  }

  class Controller {
    const board: Board
    const soc: Soc

    constructor (board: Board, soc: Soc)
      ensures this.board == board && this.soc == soc
    {
      this.board, this.soc := board, soc;
    }

    method ReadBootChainVariable(v: Var, efiOk: bool) returns (r: Reading)
      ensures r == ReadVar(v, efiOk)
    {
      if !efiOk { return Unreadable; }
      if v.None? { return Missing; }
      if |v.value| != 8 { return Unreadable; }
      return Number(FromLE(v.value[4..]));
    }

    /** Withdraws a pending request when the running slot s boots next without one. */
    method KeepRunningSlot(s: Slot, x: Answers) returns (r: Keep)
      requires board.Valid()
      modifies board
      ensures board.Valid() && r == KeepVerdict(old(board.Now()), s, soc, x)
      ensures board.trace == old(board.trace) + if r == Kept && old(board.next).Some? then [board.Now()] else []
      ensures board.Now() == if r == Kept then old(board.Now()).(next := None) else old(board.Now())
    {
      if soc == OtherSoc { return NotKept; }
      if x.running.None? { return KeepFailed; }
      if x.running.value != s { return NotKept; }
      var chain := ReadBootChainVariable(board.current, x.efiOk);
      if !chain.Number? || chain.value != s.Number() { return KeepFailed; }
      var status := ReadBootChainVariable(board.status, x.efiOk);
      if status.Unreadable? || status == Number(1) { return KeepFailed; }
      if !x.osiReadable { return KeepFailed; }
      if board.osi.Some? && |board.osi.value| >= 5 && board.osi.value[4] / 4 % 2 == 1 { return KeepFailed; }
      if !x.removeOk { return KeepFailed; }
      if board.next.Some? { board.WriteNext(None); }
      return Kept;
    }

    method CheckCapsuleBootChainIdle(efiOk: bool) returns (idle: bool)
      ensures idle == Idle(board.Now(), efiOk)
    {
      var next := ReadBootChainVariable(board.next, efiOk);
      if !next.Missing? { return false; }
      var status := ReadBootChainVariable(board.status, efiOk);
      if !status.Missing? { return false; }
      return board.bootNext.None?;
    }

    method CopyFileSync(data: seq<byte>, x: CopyInput) returns (ok: bool)
      requires board.Valid()
      modifies board
      ensures board.Valid() && ok == CopyRun(old(board.Now()), data, x).ok
      ensures board.trace == old(board.trace) + CopyRun(old(board.Now()), data, x).effects
      ensures board.Now() == Final(old(board.Now()), CopyRun(old(board.Now()), data, x).effects)
    {
      if !x.readOk { return false; }
      board.RemoveTmp(data);
      if !x.createOk { return false; }
      board.WriteTmp(Staged([], false));
      board.WriteTmp(Staged(data[..Min(x.written, |data|)], false));
      if x.written < |data| || !x.syncOk {
        board.RemoveTmp(data);
        return false;
      }
      board.WriteTmp(Staged(data, true));
      if !x.closeOk || !x.renameOk {
        board.RemoveTmp(data);
        return false;
      }
      board.RenameTmp();
      if !x.syncfsOk { return false; }
      board.SyncFs();
      return true;
    }

    method SetActiveBootSlot(s: Slot, x: Answers) returns (ok: bool)
      requires board.Valid()
      modifies board
      ensures board.Valid() && ok == Repoint(old(board.Now()), s, x).ok
      ensures board.trace == old(board.trace) + Repoint(old(board.Now()), s, x).effects
    {
      if !x.recordOk { return false; }
      board.RecordAttempt(s);
      if !x.nvbootctrlOk { return false; }
      board.WriteNext(Some(Request(s)));
      return true;
    }

    method ArmCapsule(s: Slot, x: Answers) returns (ok: bool)
      requires board.Valid()
      modifies board
      ensures board.Valid() && ok == Arm(old(board.Now()), s, x).ok
      ensures board.trace == old(board.trace) + Arm(old(board.Now()), s, x).effects
    {
      if !x.recordOk { return false; }
      board.RecordAttempt(s);
      if !x.osiWriteOk { return false; }
      var written := OsIndications.SetCapsuleBit(board.osi);
      board.WriteOsi(Some(written));
      return x.readBackOk;
    }

    method StageCapsule(s: Slot, x: Answers) returns (ok: bool)
      requires board.Valid()
      modifies board
      ensures board.Valid() && ok == Stage(old(board.Now()), s, x).ok
      ensures board.trace == old(board.trace) + Stage(old(board.Now()), s, x).effects
    {
      var idle := CheckCapsuleBootChainIdle(x.efiOk);
      if !idle || !x.espOk || x.source.None? { return false; }
      if x.version.Some? && !x.saveVersionOk { return false; }
      board.WriteVersion(x.version);
      if !x.espMountOk { return false; }
      ghost var saved, trace := board.Now(), board.trace;
      ok := CopyFileSync(x.source.value, x.copy);
      ghost var copied := CopyRun(saved, x.source.value, x.copy).effects;
      Assoc(old(board.trace), [saved], copied);
      if !ok { return; }
      ghost var staged := board.Now();
      ok := ArmCapsule(s, x);
      Assoc(old(board.trace), [saved] + copied, Arm(staged, s, x).effects);
    }

    /** Install swap (stage) or rollback swap. */
    method SwapSlot(s: Slot, stage: bool, x: Answers) returns (ok: bool)
      requires board.Valid()
      modifies board
      ensures board.Valid() && ok == SwapRun(old(board.Now()), s, stage, soc, x).ok
      ensures board.trace == old(board.trace) + SwapRun(old(board.Now()), s, stage, soc, x).effects
    {
      if !stage {
        var kept := KeepRunningSlot(s, x);
        if kept == Kept { return true; }
        // Re-pointing is the fallback: refusing would strand the rollback.
        ok := SetActiveBootSlot(s, x);
        return;
      }
      if !x.partitionOk || !x.mountOk { return false; }
      if !x.hasMarker || soc == OtherSoc {
        ok := SetActiveBootSlot(s, x);
      } else {
        ok := StageCapsule(s, x);
      }
    }

    method AbortPlatformUpdate(x: Answers) returns (ok: bool)
      requires board.Valid()
      modifies board
      ensures board.Valid() && ok == AbortRun(old(board.Now()), x).ok
      ensures board.trace == old(board.trace) + AbortRun(old(board.Now()), x).effects
    {
      if !x.osiReadable { return false; }
      var cleared := OsIndications.ClearCapsuleBit(board.osi);
      if OsIndications.Armed(board.osi) {
        if !x.osiWriteOk { return false; }
        board.WriteOsi(cleared);
      }
      if x.forgetOk { board.WriteVersion(None); }
      if x.espMountOk && x.removeOk && board.capsule.Some? { board.RemoveCapsule(); }
      return true;
    }
  }
}
