/** The streaming reader: expands a sparse image into whatever buffers the caller brings. */
module SparseReader {
  import opened Basics
  import opened LittleEndian
  import opened SparseFormat

  /** `Eof` is the bare end of file, the only one a copy loop takes for success. */
  datatype Error = NoError | Eof | UnexpectedEof | Failed

  /** The buffered source. It may answer with fewer bytes than asked, and reports an error only with none. */
  class Source {
    const data: seq<byte>
    const breaks: bool // a read error, instead of the end of file, after the data
    var pos: nat

    ghost predicate Valid()
      reads this
    {
      pos <= |data|
    }

    function Unread(): seq<byte>
      requires pos <= |data|
      reads this
    {
      data[pos..]
    }

    constructor (data: seq<byte>, breaks: bool)
      ensures Valid() && Unread() == data && this.breaks == breaks
    {
      this.data, this.breaks, this.pos := data, breaks, 0;
    }

    method Read(n: nat) returns (got: seq<byte>, err: Error)
      requires Valid() && n > 0
      modifies this
      ensures Valid() && old(Unread()) == got + Unread()
      ensures |got| <= n
      ensures err == NoError <==> got != []
      ensures err != NoError ==> old(Unread()) == []
      ensures err != NoError ==> err == if breaks then Failed else Eof
    {
      if pos == |data| { return [], if breaks then Failed else Eof; }
      var r: nat :| 1 <= r <= n && pos + r <= |data|;
      got, err := data[pos..pos + r], NoError;
      pos := pos + r;
    }

    /** io.ReadFull: n bytes or an error. */
    method ReadFull(n: nat) returns (got: seq<byte>, ok: bool)
      requires Valid()
      modifies this
      ensures Valid()
      ensures ok <==> |old(Unread())| >= n
      ensures ok ==> |got| == n && old(Unread()) == got + Unread()
    {
      got, ok := [], true;
      while |got| < n
        invariant Valid() && |got| <= n
        invariant old(Unread()) == got + Unread()
        decreases n - |got|
      {
        var more, err := Read(n - |got|);
        if err != NoError { return got, false; }
        Assoc(got, more, Unread());
        got := got + more;
      }
    }

    /** io.CopyN into nothing; a negative count copies nothing. */
    method Discard(n: int) returns (ok: bool)
      requires Valid()
      modifies this
      ensures Valid()
      ensures ok <==> Skip(old(Unread()), n).Some?
      ensures ok ==> Unread() == Skip(old(Unread()), n).value
    {
      if n <= 0 { return true; }
      var got;
      got, ok := ReadFull(n);
    }
  }

  datatype Emit = EmitRaw | EmitFill | EmitZero

  class Reader {
    const src: Source
    const blkSz: nat
    var chunksLeft: nat
    var emit: Emit
    var rem: int
    var fill: seq<byte>
    var fillPos: nat

    ghost predicate Valid()
      reads this, src
    {
      src.Valid() && |fill| == 4 && fillPos < 4
    }

    /** Everything this reader still delivers, from the state it is in. */
    ghost function Pending(): Stream
      requires Valid()
      reads this, src
    {
      if rem <= 0 then Rest(src.Unread(), chunksLeft, blkSz)
      else if emit == EmitRaw then RawRest(src.Unread(), rem, chunksLeft, blkSz)
      else if emit == EmitFill then Rest(src.Unread(), chunksLeft, blkSz).After(FillBytes(fill, fillPos, rem))
      else Rest(src.Unread(), chunksLeft, blkSz).After(Zeros(rem))
    }

    constructor (src: Source, blkSz: nat, chunksLeft: nat)
      requires src.Valid()
      ensures Valid() && this.src == src
      ensures Pending() == Rest(src.Unread(), chunksLeft, blkSz)
    {
      this.src, this.blkSz, this.chunksLeft := src, blkSz, chunksLeft;
      this.emit, this.rem, this.fill, this.fillPos := EmitRaw, 0, [0, 0, 0, 0], 0;
    }

    /** Reads the next chunk header and whatever precedes the chunk's output. */
    method NextChunk() returns (ok: bool)
      requires Valid() && rem <= 0 && chunksLeft > 0
      modifies this, src
      ensures Valid()
      ensures ok ==> Pending() == old(Pending()) && chunksLeft == old(chunksLeft) - 1
      ensures !ok ==> old(Pending()) == BROKEN
    {
      var header;
      header, ok := src.ReadFull(12);
      if !ok { return; }
      ghost var unread := src.Unread();
      assert old(src.Unread())[12..] == unread;
      assert ParseChunkHeader(old(src.Unread())) == ParseChunkHeader(header) by {
        assert old(src.Unread())[0..2] == header[0..2];
        assert old(src.Unread())[4..8] == header[4..8];
        assert old(src.Unread())[8..12] == header[8..12];
      }
      chunksLeft := chunksLeft - 1;
      ok := BeginChunk(ParseChunkHeader(header));
    }

    method BeginChunk(h: ChunkHeader) returns (ok: bool)
      requires Valid() && rem <= 0
      modifies this, src
      ensures Valid()
      ensures ok ==> Pending() == ChunkRest(h, old(src.Unread()), chunksLeft, blkSz) && chunksLeft == old(chunksLeft)
      ensures !ok ==> ChunkRest(h, old(src.Unread()), old(chunksLeft), blkSz) == BROKEN
    {
      var outBytes, payload := Int64Product(h.blks, blkSz), h.total - 12;
      ok := true;
      ghost var unread := src.Unread();
      if h.kind == RAW {
        if payload != outBytes { return false; }
        rem, emit := outBytes, EmitRaw;
      } else if h.kind == FILL {
        if payload != 4 { return false; }
        fill, ok := src.ReadFull(4);
        if !ok { fill := [0, 0, 0, 0]; return; }
        assert unread[..4] == fill && unread[4..] == src.Unread();
        rem, fillPos, emit := outBytes, 0, EmitFill;
      } else if h.kind == DONTCARE {
        if payload != 0 {
          ok := src.Discard(payload);
          if !ok { return; }
        }
        assert Skip(unread, payload) == Some(src.Unread());
        rem, emit := outBytes, EmitZero;
      } else if h.kind == CRC32 {
        ok := src.Discard(payload);
        if !ok { return; }
        rem := 0;
      } else {
        return false;
      }
      if rem <= 0 {
        assert Pending().After([]) == Pending();
      }
    }

    /** What one call of Read owes, given what was pending before it. */
    ghost predicate Delivered(before: Stream, p: array<byte>, n: nat, err: Error)
      requires Valid()
      reads this, src, p
    {
      && n <= p.Length
      && match err
         case NoError =>
           n >= 1 && p[..n] <= before.bytes && Pending() == Stream(before.bytes[n..], before.complete)
         case Eof => n == 0 && before == Stream([], true)
         case _ => n == 0 && before == BROKEN
    }

    /** Fills the front of a non-empty buffer, whatever its size. */
    method Read(p: array<byte>) returns (n: nat, err: Error)
      requires Valid() && p.Length > 0
      modifies this, src, p
      ensures Valid()
      ensures Delivered(old(Pending()), p, n, err)
    {
      while rem <= 0
        invariant Valid() && Pending() == old(Pending())
        decreases chunksLeft
      {
        if chunksLeft == 0 { return 0, Eof; }
        var ok := NextChunk();
        if !ok { return 0, Failed; }
      }
      match emit {
        case EmitRaw => n, err := DoEmitRaw(p);
        case EmitFill => n, err := DoEmitFill(p);
        case EmitZero => n, err := DoEmitZero(p);
      }
    }

    method DoEmitRaw(p: array<byte>) returns (n: nat, err: Error)
      requires Valid() && p.Length > 0 && rem > 0 && emit == EmitRaw
      modifies this, src, p
      ensures Valid()
      ensures Delivered(old(Pending()), p, n, err)
    {
      ghost var unread := src.Unread();
      var got;
      got, err := src.Read(Min(p.Length, rem));
      n := |got|;
      for i := 0 to n
        invariant p[..i] == got[..i]
        modifies p
      {
        p[i] := got[i];
      }
      assert p[..n] == got;
      RawStep(unread, got, rem, chunksLeft, blkSz);
      assert unread[n..] == src.Unread();
      rem := rem - n;
      if err == Eof && rem > 0 { err := UnexpectedEof; }
    }

    method DoEmitFill(p: array<byte>) returns (n: nat, err: Error)
      requires Valid() && p.Length > 0 && rem > 0 && emit == EmitFill
      modifies this, p
      ensures Valid()
      ensures Delivered(old(Pending()), p, n, err)
    {
      n, err := Min(p.Length, rem), NoError;
      ghost var start := fillPos;
      CopyPattern(p, n);
      rem := rem - n;
      FillStep(fill, start, n, rem);
    }

    /** Fills the front of the buffer from the pattern, byte by byte, starting at its phase. */
    method CopyPattern(p: array<byte>, n: nat)
      requires Valid() && n <= p.Length
      modifies this`fillPos, p
      ensures fillPos == (old(fillPos) + n) % 4
      ensures p[..n] == FillBytes(fill, old(fillPos), n)
    {
      var i := 0;
      while i < n
        invariant 0 <= i <= n
        invariant fillPos == (old(fillPos) + i) % 4
        invariant forall j :: 0 <= j < i ==> p[j] == fill[(old(fillPos) + j) % 4]
      {
        p[i] := fill[fillPos];
        fillPos := (fillPos + 1) % 4;
        i := i + 1;
      }
    }

    method DoEmitZero(p: array<byte>) returns (n: nat, err: Error)
      requires Valid() && p.Length > 0 && rem > 0 && emit == EmitZero
      modifies this, p
      ensures Valid()
      ensures Delivered(old(Pending()), p, n, err)
    {
      n, err := Min(p.Length, rem), NoError;
      for i := 0 to n
        invariant forall j :: 0 <= j < i ==> p[j] == 0
        invariant Valid() && unchanged(this)
      {
        p[i] := 0;
      }
      rem := rem - n;
      assert Zeros(n) + Zeros(rem) == Zeros(n + rem);
      assert p[..n] == Zeros(n);
    }
  }

  lemma RawStep(unread: seq<byte>, got: seq<byte>, n: int, chunks: nat, blk: nat)
    requires got <= unread && n > 0 && |got| <= n
    ensures RawRest(unread, n, chunks, blk) == RawRest(unread[|got|..], n - |got|, chunks, blk).After(got)
  {
    if n <= |unread| {
      assert unread[|got|..][n - |got|..] == unread[n..];
      assert got + unread[|got|..][..n - |got|] == unread[..n];
      var tail := Rest(unread[n..], chunks, blk).bytes;
      assert got + (unread[|got|..][..n - |got|] + tail) == unread[..n] + tail;
    } else {
      assert got + unread[|got|..] == unread;
    }
  }

  lemma PatternShift(pos: nat, n: nat, i: nat)
    requires n <= i
    ensures ((pos + n) % 4 + (i - n)) % 4 == (pos + i) % 4
  {
    var q := (pos + n) / 4;
    assert pos + i == 4 * q + ((pos + n) % 4 + (i - n));
  }

  lemma FillStep(pattern: seq<byte>, pos: nat, n: nat, m: nat)
    requires |pattern| == 4
    ensures FillBytes(pattern, pos, n) + FillBytes(pattern, (pos + n) % 4, m) == FillBytes(pattern, pos, n + m)
  {
    var front, back, all := FillBytes(pattern, pos, n), FillBytes(pattern, (pos + n) % 4, m), FillBytes(pattern, pos, n + m);
    forall i | 0 <= i < n + m
      ensures (front + back)[i] == all[i]
    {
      if i >= n {
        PatternShift(pos, n, i);
      }
    }
  }

  /** newSparseReader: the header, the block size check, and the declared header tail. */
  method NewReader(src: Source) returns (r: Option<Reader>)
    requires src.Valid()
    modifies src
    ensures r.Some? <==> Open(old(src.Unread())).Some?
    ensures r.Some? ==> r.value.Valid() && fresh(r.value) && r.value.src == src
    ensures r.Some? ==> r.value.Pending() == Expand(old(src.Unread()))
  {
    ghost var unread := src.Unread();
    var h, ok := src.ReadFull(28);
    if !ok { return None; }
    assert unread[0..4] == h[0..4] && unread[8..10] == h[8..10] && unread[12..16] == h[12..16];
    assert unread[20..24] == h[20..24] && unread[28..] == src.Unread();
    if FromLE(h[0..4]) != MAGIC { return None; }
    var blk := FromLE(h[12..16]);
    if blk == 0 || blk % 4 != 0 { return None; }
    var extra := FromLE(h[8..10]) - 28;
    if extra > 0 {
      ok := src.Discard(extra);
      if !ok { return None; }
    }
    assert Skip(unread[28..], extra) == Some(src.Unread());
    var reader := new Reader(src, blk, FromLE(h[20..24]));
    return Some(reader);
  }

  /** One round of a copy loop. */
  method ReadOnce(r: Reader, size: nat) returns (got: seq<byte>, err: Error)
    requires r.Valid() && size > 0
    modifies r, r.src
    ensures r.Valid()
    ensures err == NoError ==> got != [] && r.Pending().After(got) == old(r.Pending())
    ensures err != NoError ==> got == [] && old(r.Pending()).bytes == []
    ensures err != NoError ==> (err == Eof <==> old(r.Pending()).complete)
  {
    var p := new byte[size];
    ghost var before := r.Pending();
    var n;
    n, err := r.Read(p);
    got := p[..n];
    if err == NoError {
      assert before.bytes == got + before.bytes[n..];
    }
  }

  /** io.Copy out of the reader, with any sequence of buffer sizes. */
  method CopyAll(r: Reader, sizes: nat -> nat) returns (out: seq<byte>, err: Error)
    requires r.Valid()
    modifies r, r.src
    ensures r.Valid()
    ensures out == old(r.Pending()).bytes
    ensures err == Eof <==> old(r.Pending()).complete
  {
    out, err := [], NoError;
    var i := 0;
    ghost var all := r.Pending();
    assert all.After([]) == all;
    while err == NoError
      invariant r.Valid()
      invariant err == NoError ==> r.Pending().After(out) == all
      invariant err != NoError ==> out == all.bytes && (err == Eof <==> all.complete)
      decreases if err == NoError then |r.Pending().bytes| + 1 else 0
    {
      ghost var before := r.Pending();
      var got;
      got, err := ReadOnce(r, sizes(i) + 1);
      AfterTwice(r.Pending(), out, got);
      out := out + got;
      i := i + 1;
    }
  }

  lemma AfterTwice(s: Stream, a: seq<byte>, b: seq<byte>)
    ensures s.After(b).After(a) == s.After(a + b)
    ensures b == [] ==> a + b == a
  {
    assert a + (b + s.bytes) == (a + b) + s.bytes;
  }
}
