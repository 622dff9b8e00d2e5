/** Streaming an already decompressed payload onto a slot's partition. */
module BlockDev {
  import opened Basics
  import opened DurableState
  import opened Storage
  import Protocol

  datatype ReadStatus = More | Eof | Broken

  /** One answer of the decompressor: some bytes, possibly none, and how it went. */
  datatype Read = Read(data: seq<byte>, status: ReadStatus)

  datatype WriteStatus = WriteOk | OpenFailed | ReadFailed | WriteFailed | SyncFailed

  /** All bytes the source delivers, up to its end or its first error. */
  function Stream(answers: seq<Read>): seq<byte> {
    if answers == [] then []
    else if answers[0].status == More then answers[0].data + Stream(answers[1..])
    else answers[0].data
  }

  /** The source ends without an error; past its last answer it keeps reporting the end. */
  predicate Ends(answers: seq<Read>) {
    answers == [] || answers[0].status == Eof || (answers[0].status == More && Ends(answers[1..]))
  }

  /** Every intermediate content is a prefix of the stream over the old content. */
  ghost predicate PartialWrites(before: Image, stream: seq<byte>, writes: seq<Image>) {
    forall i :: 0 <= i < |writes| ==> PartialWrite(before, stream, writes[i])
  }

  ghost predicate PartialWrite(before: Image, stream: seq<byte>, img: Image) {
    exists k :: 0 <= k <= |stream| && k <= |before| && img == Overlay(before, stream[..k])
  }

  function LastOr(d: Image, writes: seq<Image>): Image {
    if writes == [] then d else writes[|writes| - 1]
  }

  /** The slot went from d0 through `writes` and now starts with `flushed`. */
  ghost predicate Progress(d0: Durable, trace0: seq<Durable>, disk: Disk, s: Slot, writes: seq<Image>, flushed: seq<byte>)
    reads disk
  {
    && disk.Valid()
    && disk.trace == trace0 + Protocol.SlotWrites(d0, s, writes)
    && disk.Now() == Protocol.Final(d0, Protocol.SlotWrites(d0, s, writes))
    && |flushed| <= |d0.ImageOf(s)|
    && disk.ImageOf(s) == Overlay(d0.ImageOf(s), flushed)
  }

  lemma Begin(disk: Disk, s: Slot, stream: seq<byte>)
    requires disk.Valid()
    ensures Progress(disk.Now(), disk.trace, disk, s, [], [])
    ensures PartialWrites(disk.ImageOf(s), stream, [])
  {
    assert disk.trace + Protocol.SlotWrites(disk.Now(), s, []) == disk.trace;
  }

  lemma OverlayExtends(before: Image, a: seq<byte>, b: seq<byte>)
    requires |a| + |b| <= |before|
    ensures Overlay(before, a)[..|a|] + b + Overlay(before, a)[|a| + |b|..] == Overlay(before, a + b)
  {
  }

  lemma SlotWritesExtend(d: Durable, s: Slot, writes: seq<Image>, img: Image)
    ensures Protocol.SlotWrites(d, s, writes + [img])
         == Protocol.SlotWrites(d, s, writes)
            + [Protocol.Final(d, Protocol.SlotWrites(d, s, writes)).WithImage(s, img).(vouched := d.vouched - {s})]
  {
    assert (d.vouched - {s}) - {s} == d.vouched - {s};
  }

  /** How many bytes the partition takes: all it has room for, unless it stops working after `usable` of them. */
  function Room(img: Image, usable: nat): nat {
    Min(|img|, usable)
  }

  /** Moves `chunk` from the buffer to the partition, right behind the bytes already there, as far as it takes them. */
  method Flush(disk: Disk, s: Slot, flushed: seq<byte>, chunk: seq<byte>, usable: nat,
               ghost d0: Durable, ghost trace0: seq<Durable>, ghost earlier: seq<Image>)
    returns (taken: nat, ghost writes: seq<Image>)
    requires chunk != []
    requires Progress(d0, trace0, disk, s, earlier, flushed)
    requires |flushed| <= usable
    modifies disk
    ensures taken == Min(|chunk|, Room(d0.ImageOf(s), usable) - |flushed|)
    ensures writes == if taken == 0 then earlier else earlier + [Overlay(d0.ImageOf(s), flushed + chunk[..taken])]
    ensures Progress(d0, trace0, disk, s, writes, flushed + chunk[..taken])
  {
    writes := earlier;
    taken := Min(|chunk|, Min(|disk.ImageOf(s)|, usable) - |flushed|);
    if taken > 0 {
      var img := disk.ImageOf(s)[..|flushed|] + chunk[..taken] + disk.ImageOf(s)[|flushed| + taken..];
      OverlayExtends(d0.ImageOf(s), flushed, chunk[..taken]);
      SlotWritesExtend(d0, s, writes, img);
      assert disk.Now().vouched - {s} == d0.vouched - {s};
      disk.WriteSlot(s, img);
      writes := writes + [img];
    } else {
      assert flushed + chunk[..0] == flushed;
    }
  }

  lemma StreamStep(answers: seq<Read>, i: nat)
    requires i < |answers|
    ensures Stream(answers[i..]) == answers[i].data + (if answers[i].status == More then Stream(answers[i + 1..]) else [])
    ensures Ends(answers[i..]) == (answers[i].status == Eof || (answers[i].status == More && Ends(answers[i + 1..])))
  {
    assert answers[i..][1..] == answers[i + 1..];
  }

  /** After i answers: `hashed` is what they delivered, and the rest is still to come. */
  ghost predicate Reading(answers: seq<Read>, i: nat, ended: bool, hashed: seq<byte>) {
    && i <= |answers|
    && Stream(answers) == hashed + (if ended then [] else Stream(answers[i..]))
    && Ends(answers) == (ended || Ends(answers[i..]))
  }

  lemma ReadingStep(answers: seq<Read>, i: nat, hashed: seq<byte>)
    requires i < |answers| && Reading(answers, i, false, hashed)
    ensures hashed + answers[i].data <= Stream(answers)
    ensures answers[i].status != Broken ==> Reading(answers, i + 1, answers[i].status == Eof, hashed + answers[i].data)
    ensures answers[i].status == Broken ==> !Ends(answers)
  {
    StreamStep(answers, i);
    Assoc(hashed, answers[i].data, if answers[i].status == More then Stream(answers[i + 1..]) else []);
    assert answers[i].status != More ==> hashed + answers[i].data + [] == hashed + answers[i].data;
  }

  lemma PartialWritesExtend(before: Image, stream: seq<byte>, writes: seq<Image>, front: seq<byte>)
    requires PartialWrites(before, stream, writes)
    requires front <= stream && |front| <= |before|
    ensures PartialWrites(before, stream, writes + [Overlay(before, front)])
  {
    assert stream[..|front|] == front;
    assert PartialWrite(before, stream, Overlay(before, front));
  }

  /** The copy so far: all bytes hashed, of which `flushed` reached the device and `pending` did not. */
  datatype Copy = Copy(hashed: seq<byte>, flushed: seq<byte>, pending: seq<byte>) {
    predicate Consistent() {
      hashed == flushed + pending
    }
  }

  /** Draining n bytes of what is buffered keeps the account, and what then is on the device is a prefix of the stream. */
  lemma PushKeepsConsistent(c: Copy, data: seq<byte>, n: nat, stream: seq<byte>)
    requires c.Consistent()
    requires n <= |c.pending + data| && c.hashed + data <= stream
    ensures Copy(c.hashed + data, c.flushed + (c.pending + data)[..n], (c.pending + data)[n..]).Consistent()
    ensures c.flushed + (c.pending + data)[..n] <= stream
    ensures |c.flushed| + |c.pending| + |data| <= |stream|
  {
    var drained, kept := (c.pending + data)[..n], (c.pending + data)[n..];
    assert drained + kept == c.pending + data;
    assert c.hashed + data == (c.flushed + drained) + kept;
    Assoc(c.flushed, drained, kept);
  }

  /** One buffered write: hash the data, buffer it, and drain `want` bytes of the buffer. */
  method Push(disk: Disk, s: Slot, c: Copy, data: seq<byte>, want: nat, usable: nat,
              ghost d0: Durable, ghost trace0: seq<Durable>, ghost stream: seq<byte>, ghost earlier: seq<Image>)
    returns (fits: bool, next: Copy, ghost writes: seq<Image>)
    requires Copying(d0, trace0, disk, s, stream, earlier, c, usable)
    requires c.hashed + data <= stream
    modifies disk
    ensures Copying(d0, trace0, disk, s, stream, writes, next, usable)
    ensures next.hashed == c.hashed + data
    ensures !fits ==> |stream| > Room(d0.ImageOf(s), usable)
    ensures fits && want >= |c.pending| + |data| ==> next.flushed == next.hashed
  {
    var buffered := c.pending + data;
    next, fits, writes := Copy(c.hashed + data, c.flushed, buffered), true, earlier;
    assert c.hashed + data == c.flushed + buffered;
    var n := Min(want, |buffered|);
    if n > 0 {
      var taken: nat;
      taken, writes := Flush(disk, s, c.flushed, buffered[..n], usable, d0, trace0, earlier);
      PushKeepsConsistent(c, data, taken, stream);
      assert buffered[..n][..taken] == buffered[..taken];
      fits := taken == n;
      next := Copy(c.hashed + data, c.flushed + buffered[..taken], buffered[taken..]);
      PartialWritesExtend(d0.ImageOf(s), stream, earlier, next.flushed);
    }
  }

  /** The copy in progress: the device holds what was flushed, and never held anything but prefixes of the stream. */
  ghost predicate Copying(d0: Durable, trace0: seq<Durable>, disk: Disk, s: Slot, stream: seq<byte>,
                          writes: seq<Image>, c: Copy, usable: nat)
    reads disk
  {
    && c.Consistent()
    && |c.flushed| <= usable
    && Progress(d0, trace0, disk, s, writes, c.flushed)
    && PartialWrites(d0.ImageOf(s), stream, writes)
  }

  /** The read and write loop with the final flush. */
  method CopyStream(disk: Disk, s: Slot, answers: seq<Read>, drain: nat -> nat, usable: nat)
    returns (status: WriteStatus, copy: Copy, written: nat, ghost writes: seq<Image>)
    requires disk.Valid()
    modifies disk
    ensures Copying(old(disk.Now()), old(disk.trace), disk, s, Stream(answers), writes, copy, usable)
    ensures status == WriteOk <==> Ends(answers) && |Stream(answers)| <= Room(old(disk.ImageOf(s)), usable)
    ensures status == WriteOk ==> copy.flushed == copy.hashed == Stream(answers) && written == |Stream(answers)|
  {
    ghost var d0, trace0, stream := disk.Now(), disk.trace, Stream(answers);
    Begin(disk, s, stream);
    copy, written, writes := Copy([], [], []), 0, [];
    var i, ended, fits := 0, false, true;
    while i < |answers| && !ended
      invariant 0 <= i <= |answers|
      invariant Copying(d0, trace0, disk, s, stream, writes, copy, usable)
      invariant Reading(answers, i, ended, copy.hashed) && written == |copy.hashed|
    {
      var r := answers[i];
      ReadingStep(answers, i, copy.hashed);
      fits, copy, writes := Push(disk, s, copy, r.data, drain(i), usable, d0, trace0, stream, writes);
      if !fits { return WriteFailed, copy, written, writes; }
      written := written + |r.data|;
      if r.status == Broken { return ReadFailed, copy, written, writes; }
      ended, i := r.status == Eof, i + 1;
    }
    assert copy.hashed == stream == copy.hashed + [];
    fits, copy, writes := Push(disk, s, copy, [], |copy.pending|, usable, d0, trace0, stream, writes);
    status := if fits then WriteOk else WriteFailed;
  }

  /**
   WriteImage: copies the stream to the partition through a buffer that drains
   whenever it likes (`drain`), keeping a running digest and byte count.
   */
  method WriteImage(disk: Disk, s: Slot, answers: seq<Read>, drain: nat -> nat, sha: seq<byte> -> Digest,
                    openOk: bool, usable: nat, syncOk: bool)
    returns (status: WriteStatus, written: nat, digest: Digest, ghost writes: seq<Image>)
    requires disk.Valid()
    modifies disk
    ensures disk.Valid()
    ensures disk.trace == old(disk.trace) + Protocol.SlotWrites(old(disk.Now()), s, writes)
    ensures disk.Now() == Protocol.Final(old(disk.Now()), Protocol.SlotWrites(old(disk.Now()), s, writes))
    ensures PartialWrites(old(disk.ImageOf(s)), Stream(answers), writes)
    ensures status == WriteOk <==>
              openOk && syncOk && Ends(answers) && |Stream(answers)| <= Room(old(disk.ImageOf(s)), usable)
    ensures status == WriteOk ==>
              && written == |Stream(answers)|
              && digest == sha(Stream(answers))
              && disk.ImageOf(s) == Overlay(old(disk.ImageOf(s)), Stream(answers))
  {
    Begin(disk, s, Stream(answers));
    if !openOk { return OpenFailed, 0, [], []; }
    var copy: Copy;
    status, copy, written, writes := CopyStream(disk, s, answers, drain, usable);
    if status != WriteOk { return status, written, [], writes; }
    if !syncOk { return SyncFailed, written, [], writes; }
    return WriteOk, written, sha(copy.hashed), writes;
  }
}
