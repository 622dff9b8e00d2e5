/** The check a commit makes after a bootloader update: version, then ESRT, then the benefit of the doubt. */
module PlatformVerify {
  import opened Basics

  datatype Esrt = NotReadable | Garbled | Status(code: int)

  /** `before` is the version saved when the capsule was staged, `current` what the bootloader reports now. */
  datatype Facts = Facts(marker: bool, before: Option<string>, current: Option<string>, esrt: Esrt)

  datatype Outcome = Outcome(ok: bool, before: Option<string>)

  predicate VersionChanged(f: Facts) {
    f.before.Some? && f.current.Some? && f.before != f.current
  }

  /** Standard UEFI errors 1 to 6 and NVIDIA's vendor range, which holds 6163 and 6164. */
  predicate EsrtRejects(e: Esrt) {
    e.Garbled? || (e.Status? && (1 <= e.code <= 6 || 0x1000 <= e.code <= 0x4000))
  }

  function Verify(f: Facts): Outcome {
    if !f.marker then Outcome(true, f.before)
    else if VersionChanged(f) then Outcome(true, None)
    else if EsrtRejects(f.esrt) then Outcome(false, f.before)
    else Outcome(true, None)
  }

  class Controller {
    var before: Option<string>

    /** VerifyPlatformUpdate: the saved version is deleted on every success. */
    method VerifyPlatformUpdate(marker: bool, current: Option<string>, esrt: Esrt) returns (ok: bool)
      modifies this
      ensures Outcome(ok, before) == Verify(Facts(marker, old(before), current, esrt))
    {
      if !marker { return true; }
      if before.Some? && current.Some? && before.value != current.value {
        before := None;
        return true;
      }
      if esrt.Garbled? { return false; }
      if esrt.Status? {
        if esrt.code == 0 {
          before := None;
          return true;
        }
        if 1 <= esrt.code <= 6 { return false; }
        if esrt.code == 6163 { return false; }
        if esrt.code == 6164 { return false; }
        if 0x1000 <= esrt.code <= 0x4000 { return false; }
      }
      before := None;
      return true;
    }
  }

  /**
   A commit that is cut after this check and run again asks a second time. The
   answer is the same if and only if the first one did not pass on a version
   change that the ESRT contradicts: the version it rested on is gone.
   */
  lemma SecondVerdictAgrees(f: Facts)
    ensures Verify(f.(before := Verify(f).before)).ok == Verify(f).ok
            <==> !(f.marker && VersionChanged(f) && EsrtRejects(f.esrt))
  {
  }

  /** A witness: the version changed, the ESRT still shows the cancelled attempt before it. */
  lemma SecondVerdictCanDiffer()
    ensures var f := Facts(true, Some("36.4"), Some("39.2"), Status(6163));
            Verify(f).ok && !Verify(f.(before := Verify(f).before)).ok
  {
  }

  /**
   Without the marker nothing is checked. With it, the update is refused exactly
   when the version did not visibly change and the ESRT is unintelligible or
   reports an error; only a refusal keeps the saved version.
   */
  lemma VerdictIff(f: Facts)
    ensures var changed := f.before.Some? && f.current.Some? && f.before.value != f.current.value;
            var error := f.esrt.Status? && (f.esrt.code in {1, 2, 3, 4, 5, 6} || 4096 <= f.esrt.code <= 16384);
            && (Verify(f).ok <==> !f.marker || changed || !(f.esrt.Garbled? || error))
            && Verify(f).before == if f.marker && Verify(f).ok then None else f.before
  {
  }
}
