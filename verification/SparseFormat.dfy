/**
 The Android sparse image format (AOSP libsparse, sparse_format.h): what a
 sequence of chunks means, how it is stored, and what the bytes on disk expand
 to when read the way the packer reads them.
 */
module SparseFormat {
  import opened Basics
  import opened LittleEndian

  const RAW: nat := 0xCAC1
  const FILL: nat := 0xCAC2
  const DONTCARE: nat := 0xCAC3
  const CRC32: nat := 0xCAC4

  const MAGIC: nat := 0xed26ff3a
  const TWO_TO_32: int := 0x1_0000_0000
  const TWO_TO_63: int := 0x8000_0000_0000_0000
  const TWO_TO_64: int := 0x1_0000_0000_0000_0000

  // ---- reading: from bytes to output ----

  /** What a reader still delivers, and whether it then reports a bare end of file. */
  datatype Stream = Stream(bytes: seq<byte>, complete: bool) {
    function After(front: seq<byte>): Stream {
      Stream(front + bytes, complete)
    }
  }

  const BROKEN: Stream := Stream([], false)

  /** The product of two uint32 as a Go int64. */
  function Int64Product(a: nat, b: nat): int {
    if a * b < TWO_TO_63 then a * b else a * b - TWO_TO_64
  }

  function Zeros(n: nat): (s: seq<byte>)
    ensures |s| == n
  {
    seq(n, _ => 0)
  }

  /** n bytes of a four-byte pattern, from position pos of it. */
  function FillBytes(pattern: seq<byte>, pos: nat, n: nat): (s: seq<byte>)
    requires |pattern| == 4
    ensures |s| == n
  {
    seq(n, i requires 0 <= i < n => pattern[(pos + i) % 4])
  }

  datatype ChunkHeader = ChunkHeader(kind: nat, blks: nat, total: nat)

  function ParseChunkHeader(b: seq<byte>): ChunkHeader
    requires |b| >= 12
  {
    ChunkHeader(FromLE(b[0..2]), FromLE(b[4..8]), FromLE(b[8..12]))
  }

  function Max0(n: int): nat {
    if n > 0 then n else 0
  }

  /** Skipping a payload; a negative length skips nothing. */
  function Skip(data: seq<byte>, payload: int): Option<seq<byte>> {
    if |data| < payload then None else Some(data[Max0(payload)..])
  }

  /** The expansion of `chunks` chunks stored at the start of `data`. */
  function Rest(data: seq<byte>, chunks: nat, blk: nat): Stream
    decreases chunks, 0
  {
    if chunks == 0 then Stream([], true)
    else if |data| < 12 then BROKEN
    else ChunkRest(ParseChunkHeader(data), data[12..], chunks - 1, blk)
  }

  function ChunkRest(h: ChunkHeader, data: seq<byte>, chunks: nat, blk: nat): Stream
    decreases chunks, 2
  {
    var out, payload := Int64Product(h.blks, blk), h.total - 12;
    if h.kind == RAW then
      if payload != out then BROKEN else RawRest(data, out, chunks, blk)
    else if h.kind == FILL then
      if payload != 4 || |data| < 4 then BROKEN
      else Rest(data[4..], chunks, blk).After(FillBytes(data[..4], 0, Max0(out)))
    else if h.kind == DONTCARE then
      match Skip(data, payload)
      case None => BROKEN
      case Some(d) => Rest(d, chunks, blk).After(Zeros(Max0(out)))
    else if h.kind == CRC32 then
      match Skip(data, payload)
      case None => BROKEN
      case Some(d) => Rest(d, chunks, blk)
    else BROKEN
  }

  function RawRest(data: seq<byte>, n: int, chunks: nat, blk: nat): Stream
    decreases chunks, 1
  {
    if n <= 0 then Rest(data, chunks, blk)
    else if |data| < n then Stream(data, false)
    else Rest(data[n..], chunks, blk).After(data[..n])
  }

  // ---- the file header ----

  /** Where the chunks start, how many there are, and the block size. */
  datatype Opened = Opened(chunks: seq<byte>, count: nat, blk: nat)

  function Open(data: seq<byte>): Option<Opened> {
    if |data| < 28 || FromLE(data[0..4]) != MAGIC then None
    else
      var blk := FromLE(data[12..16]);
      if blk == 0 || blk % 4 != 0 then None
      else
        match Skip(data[28..], FromLE(data[8..10]) - 28)
        case None => None
        case Some(d) => Some(Opened(d, FromLE(data[20..24]), blk))
  }

  /** A whole file through the reader, if its header is accepted. */
  function Expand(data: seq<byte>): Stream {
    match Open(data)
    case None => BROKEN
    case Some(o) => Rest(o.chunks, o.count, o.blk)
  }

  // ---- writing: what an image means and how it is stored ----

  datatype Chunk =
    | Raw(resv: nat, data: seq<byte>)
    | Fill(resv: nat, pattern: seq<byte>, blks: nat)
    | DontCare(resv: nat, junk: seq<byte>, blks: nat)
    | Crc(resv: nat, blks: nat, crc: seq<byte>)

  function Payload(c: Chunk): seq<byte> {
    match c
    case Raw(_, data) => data
    case Fill(_, pattern, _) => pattern
    case DontCare(_, junk, _) => junk
    case Crc(_, _, crc) => crc
  }

  function Kind(c: Chunk): nat {
    match c
    case Raw(_, _) => RAW
    case Fill(_, _, _) => FILL
    case DontCare(_, _, _) => DONTCARE
    case Crc(_, _, _) => CRC32
  }

  function Blks(c: Chunk, blk: nat): nat
    requires blk > 0
  {
    match c
    case Raw(_, data) => |data| / blk
    case Fill(_, _, blks) => blks
    case DontCare(_, _, blks) => blks
    case Crc(_, blks, _) => blks
  }

  /** Fits the fields of the format. */
  predicate WellFormed(c: Chunk, blk: nat) {
    && 0 < blk < TWO_TO_32
    && c.resv < 0x1_0000
    && |Payload(c)| + 12 < TWO_TO_32
    && Blks(c, blk) < TWO_TO_32
    && (c.Raw? ==> |c.data| % blk == 0)
    && (c.Fill? ==> |c.pattern| == 4)
  }

  /** A chunk's output in bytes, as the format defines it. */
  function Meaning(c: Chunk, blk: nat): seq<byte>
    requires WellFormed(c, blk)
  {
    match c
    case Raw(_, data) => data
    case Fill(_, pattern, blks) => FillBytes(pattern, 0, blks * blk)
    case DontCare(_, _, blks) => Zeros(blks * blk)
    case Crc(_, _, _) => []
  }

  function Header(c: Chunk, blk: nat): (h: seq<byte>)
    requires blk > 0
    ensures |h| == 12
  {
    ToLE(Kind(c), 2) + ToLE(c.resv, 2) + ToLE(Blks(c, blk), 4) + ToLE(12 + |Payload(c)|, 4)
  }

  function Encode(c: Chunk, blk: nat): seq<byte>
    requires blk > 0
  {
    Header(c, blk) + Payload(c)
  }

  predicate AllWellFormed(cs: seq<Chunk>, blk: nat) {
    0 < blk < TWO_TO_32 && forall c :: c in cs ==> WellFormed(c, blk)
  }

  function MeaningAll(cs: seq<Chunk>, blk: nat): seq<byte>
    requires AllWellFormed(cs, blk)
  {
    if cs == [] then [] else Meaning(cs[0], blk) + MeaningAll(cs[1..], blk)
  }

  function EncodeAll(cs: seq<Chunk>, blk: nat): seq<byte>
    requires blk > 0
  {
    if cs == [] then [] else Encode(cs[0], blk) + EncodeAll(cs[1..], blk)
  }

  /** Output of at most 2^63 - 1 bytes: all a Go int64 can count. */
  predicate Countable(c: Chunk, blk: nat) {
    c.Fill? || c.DontCare? ==> c.blks * blk < TWO_TO_63
  }

  // ---- what the pieces are ----

  /** Whole copies of a pattern. */
  function Copies(pattern: seq<byte>, n: nat): seq<byte> {
    if n == 0 then [] else pattern + Copies(pattern, n - 1)
  }

  /** A fill begins with its pattern, in order, and goes on the same way. */
  lemma FillBegins(pattern: seq<byte>, n: nat)
    requires |pattern| == 4
    ensures FillBytes(pattern, 0, n + 4) == pattern + FillBytes(pattern, 0, n)
  {
    forall i | 0 <= i < n + 4
      ensures FillBytes(pattern, 0, n + 4)[i] == (pattern + FillBytes(pattern, 0, n))[i]
    {
      assert i >= 4 ==> i % 4 == (i - 4) % 4;
    }
  }

  lemma {:induction false} FillIsCopies(pattern: seq<byte>, n: nat)
    requires |pattern| == 4
    ensures FillBytes(pattern, 0, 4 * n) == Copies(pattern, n)
  {
    if n > 0 {
      FillBegins(pattern, 4 * (n - 1));
      FillIsCopies(pattern, n - 1);
    }
  }

  /** With blocks of whole words, a fill chunk means whole copies of its pattern, and a skipped chunk means zeros. */
  lemma ChunkMeanings(c: Chunk, blk: nat)
    requires WellFormed(c, blk)
    ensures c.Fill? && blk % 4 == 0 ==> Meaning(c, blk) == Copies(c.pattern, c.blks * (blk / 4))
    ensures c.DontCare? ==> |Meaning(c, blk)| == c.blks * blk && forall i :: 0 <= i < c.blks * blk ==> Meaning(c, blk)[i] == 0
    ensures c.Raw? ==> Meaning(c, blk) == c.data
    ensures c.Crc? ==> Meaning(c, blk) == []
  {
    if c.Fill? && blk % 4 == 0 {
      var n := c.blks * (blk / 4);
      assert c.blks * blk == 4 * n by {
        assert blk == 4 * (blk / 4);
        assert c.blks * (4 * (blk / 4)) == 4 * (c.blks * (blk / 4));
      }
      FillIsCopies(c.pattern, n);
    }
  }

  // ---- reading inverts writing ----

  lemma HeaderParses(c: Chunk, blk: nat, rest: seq<byte>)
    requires WellFormed(c, blk)
    ensures ParseChunkHeader(Header(c, blk) + rest) == ChunkHeader(Kind(c), Blks(c, blk), 12 + |Payload(c)|)
  {
    var b := Header(c, blk) + rest;
    assert b[0..2] == ToLE(Kind(c), 2);
    assert b[4..8] == ToLE(Blks(c, blk), 4);
    assert b[8..12] == ToLE(12 + |Payload(c)|, 4);
    assert Pow256(2) == 0x1_0000;
    assert Pow256(4) == TWO_TO_32;
    FromToLE(Kind(c), 2);
    FromToLE(Blks(c, blk), 4);
    FromToLE(12 + |Payload(c)|, 4);
  }

  /** What the reader makes of one chunk: its meaning, or nothing when the size does not fit an int64. */
  function Actual(c: Chunk, blk: nat): seq<byte>
    requires WellFormed(c, blk)
  {
    if Countable(c, blk) then Meaning(c, blk) else []
  }

  function ActualAll(cs: seq<Chunk>, blk: nat): seq<byte>
    requires AllWellFormed(cs, blk)
  {
    if cs == [] then [] else Actual(cs[0], blk) + ActualAll(cs[1..], blk)
  }

  lemma ProductBound(a: nat, b: nat)
    requires a < TWO_TO_32 && b < TWO_TO_32
    ensures a * b < TWO_TO_64
  {
    assert a * b <= a * TWO_TO_32 <= TWO_TO_32 * TWO_TO_32;
  }

  lemma RawProduct(data: seq<byte>, blk: nat)
    requires blk > 0 && |data| % blk == 0 && |data| < TWO_TO_32
    ensures Int64Product(|data| / blk, blk) == |data|
  {
  }

  lemma OneBody(c: Chunk, blk: nat, rest: seq<byte>, chunks: nat)
    requires WellFormed(c, blk)
    ensures ChunkRest(ChunkHeader(Kind(c), Blks(c, blk), 12 + |Payload(c)|), Payload(c) + rest, chunks, blk)
         == Rest(rest, chunks, blk).After(Actual(c, blk))
  {
    var tail := Rest(rest, chunks, blk);
    assert (Payload(c) + rest)[|Payload(c)|..] == rest;
    assert (Payload(c) + rest)[..|Payload(c)|] == Payload(c);
    assert tail.After([]) == tail;
    match c
    case Raw(_, data) => RawProduct(data, blk);
    case Fill(_, pattern, blks) => ProductBound(blks, blk);
    case DontCare(_, junk, blks) => ProductBound(blks, blk);
    case Crc(_, _, _) =>
  }

  lemma OneChunk(c: Chunk, blk: nat, rest: seq<byte>, chunks: nat)
    requires WellFormed(c, blk)
    ensures Rest(Encode(c, blk) + rest, chunks + 1, blk) == Rest(rest, chunks, blk).After(Actual(c, blk))
  {
    var data := Encode(c, blk) + rest;
    assert data == Header(c, blk) + (Payload(c) + rest);
    assert data[12..] == Payload(c) + rest;
    HeaderParses(c, blk, Payload(c) + rest);
    OneBody(c, blk, rest, chunks);
  }

  lemma {:induction false} ReaderOutput(cs: seq<Chunk>, blk: nat, trailing: seq<byte>)
    requires AllWellFormed(cs, blk)
    ensures Rest(EncodeAll(cs, blk) + trailing, |cs|, blk) == Stream(ActualAll(cs, blk), true)
  {
    if cs != [] {
      assert EncodeAll(cs, blk) + trailing == Encode(cs[0], blk) + (EncodeAll(cs[1..], blk) + trailing);
      OneChunk(cs[0], blk, EncodeAll(cs[1..], blk) + trailing, |cs| - 1);
      ReaderOutput(cs[1..], blk, trailing);
    }
  }

  lemma {:induction false} ActualIsMeaningIffCountable(cs: seq<Chunk>, blk: nat)
    requires AllWellFormed(cs, blk)
    ensures |ActualAll(cs, blk)| <= |MeaningAll(cs, blk)|
    ensures |ActualAll(cs, blk)| == |MeaningAll(cs, blk)| ==> forall c :: c in cs ==> Countable(c, blk)
    ensures (forall c :: c in cs ==> Countable(c, blk)) ==> ActualAll(cs, blk) == MeaningAll(cs, blk)
  {
    if cs != [] {
      ActualIsMeaningIffCountable(cs[1..], blk);
      assert !Countable(cs[0], blk) ==> |Meaning(cs[0], blk)| > |Actual(cs[0], blk)|;
      assert forall c :: c in cs <==> c == cs[0] || c in cs[1..];
    }
  }

  /**
   Reading back a stored image, whatever follows it, gives exactly its meaning
   and a bare end of file, if and only if every chunk's output fits an int64.
   */
  lemma ReadingInvertsWriting(cs: seq<Chunk>, blk: nat, trailing: seq<byte>)
    requires AllWellFormed(cs, blk)
    ensures Rest(EncodeAll(cs, blk) + trailing, |cs|, blk) == Stream(MeaningAll(cs, blk), true)
            <==> forall c :: c in cs ==> Countable(c, blk)
  {
    ReaderOutput(cs, blk, trailing);
    ActualIsMeaningIffCountable(cs, blk);
  }

  /** The smallest kind of witness: one chunk of zeros too long for an int64 comes out empty, and no error is seen. */
  lemma UncountableChunkVanishes()
    ensures var c := DontCare(0, [], 0xffff_ffff);
            && WellFormed(c, 0xffff_fffc)
            && |Meaning(c, 0xffff_fffc)| > 0
            && Rest(Encode(c, 0xffff_fffc), 1, 0xffff_fffc) == Stream([], true)
  {
    var c := DontCare(0, [], 0xffff_ffff);
    OneChunk(c, 0xffff_fffc, [], 0);
    assert Encode(c, 0xffff_fffc) + [] == Encode(c, 0xffff_fffc);
  }

  // ---- truncation is always noticed ----

  lemma TruncatedBody(c: Chunk, blk: nat, k: nat, chunks: nat)
    requires WellFormed(c, blk) && k < |Payload(c)|
    ensures var r := ChunkRest(ChunkHeader(Kind(c), Blks(c, blk), 12 + |Payload(c)|), Payload(c)[..k], chunks, blk);
            !r.complete && r.bytes <= Actual(c, blk)
  {
    if c.Raw? {
      RawProduct(c.data, blk);
    }
  }

  lemma TruncatedChunk(c: Chunk, blk: nat, k: nat, chunks: nat)
    requires WellFormed(c, blk) && k < |Encode(c, blk)|
    ensures var r := Rest(Encode(c, blk)[..k], chunks + 1, blk);
            !r.complete && r.bytes <= Actual(c, blk)
  {
    if k >= 12 {
      var data := Encode(c, blk)[..k];
      assert data == Header(c, blk) + Payload(c)[..k - 12];
      HeaderParses(c, blk, Payload(c)[..k - 12]);
      assert data[12..] == Payload(c)[..k - 12];
      TruncatedBody(c, blk, k - 12, chunks);
    }
  }

  /** A stored image cut short anywhere: some front part of its output, then an error, never a bare end of file. */
  lemma {:induction false} TruncationIsNoticed(cs: seq<Chunk>, blk: nat, k: nat)
    requires AllWellFormed(cs, blk) && k < |EncodeAll(cs, blk)|
    ensures var r := Rest(EncodeAll(cs, blk)[..k], |cs|, blk);
            !r.complete && r.bytes <= ActualAll(cs, blk)
  {
    var first := Encode(cs[0], blk);
    if k < |first| {
      assert EncodeAll(cs, blk)[..k] == first[..k];
      TruncatedChunk(cs[0], blk, k, |cs| - 1);
    } else {
      TruncationIsNoticed(cs[1..], blk, k - |first|);
      assert EncodeAll(cs, blk)[..k] == first + EncodeAll(cs[1..], blk)[..k - |first|];
      OneChunk(cs[0], blk, EncodeAll(cs[1..], blk)[..k - |first|], |cs| - 1);
      var r := Rest(EncodeAll(cs[1..], blk)[..k - |first|], |cs| - 1, blk);
      PrefixUnder(Actual(cs[0], blk), r.bytes, ActualAll(cs[1..], blk));
    }
  }

  lemma PrefixUnder(a: seq<byte>, b: seq<byte>, c: seq<byte>)
    requires b <= c
    ensures a + b <= a + c
  {
  }

  // ---- whatever is complete was written ----

  /** No chunk met on the way declares fewer bytes than its own header; such a chunk would skip nothing. */
  predicate TotalsCoverHeaders(data: seq<byte>, chunks: nat)
    decreases chunks
  {
    chunks == 0 || |data| < 12
    || (var total := ParseChunkHeader(data).total;
        total >= 12 && (total <= |data| ==> TotalsCoverHeaders(data[total..], chunks - 1)))
  }

  /** The data starts with these chunks, each in the fields of the format. */
  predicate Stores(data: seq<byte>, cs: seq<Chunk>, blk: nat) {
    AllWellFormed(cs, blk) && EncodeAll(cs, blk) <= data
  }

  /** The chunk a header and its payload stand for. */
  function ChunkOf(h: ChunkHeader, resv: nat, payload: seq<byte>): Chunk {
    if h.kind == RAW then Raw(resv, payload)
    else if h.kind == FILL then Fill(resv, payload, h.blks)
    else if h.kind == DONTCARE then DontCare(resv, payload, h.blks)
    else Crc(resv, h.blks, payload)
  }

  lemma HeaderFields(data: seq<byte>)
    requires |data| >= 12
    ensures var h := ParseChunkHeader(data);
            && h.kind < 0x1_0000 && h.blks < TWO_TO_32 && h.total < TWO_TO_32 && FromLE(data[2..4]) < 0x1_0000
            && data[..12] == ToLE(h.kind, 2) + ToLE(FromLE(data[2..4]), 2) + ToLE(h.blks, 4) + ToLE(h.total, 4)
  {
    assert Pow256(2) == 0x1_0000;
    assert Pow256(4) == TWO_TO_32;
    FromLEBound(data[0..2]);
    FromLEBound(data[2..4]);
    FromLEBound(data[4..8]);
    FromLEBound(data[8..12]);
    ToFromLE(data[0..2]);
    ToFromLE(data[2..4]);
    ToFromLE(data[4..8]);
    ToFromLE(data[8..12]);
    assert data[..12] == data[0..2] + data[2..4] + data[4..8] + data[8..12];
  }

  /** A chunk that does not break the reader has a known kind, its payload, and a size that goes with it. */
  lemma UnbrokenChunk(h: ChunkHeader, data: seq<byte>, chunks: nat, blk: nat)
    requires 0 < blk < TWO_TO_32 && h.blks < TWO_TO_32 && 12 <= h.total < TWO_TO_32
    requires ChunkRest(h, data, chunks, blk).complete
    ensures h.kind in {RAW, FILL, DONTCARE, CRC32} && h.total - 12 <= |data|
    ensures h.kind == RAW ==> h.total - 12 == h.blks * blk
    ensures h.kind == FILL ==> h.total == 16
    ensures Rest(data[h.total - 12..], chunks, blk).complete
  {
    ProductBound(h.blks, blk);
    assert Int64Product(h.blks, blk) >= 0 ==> Int64Product(h.blks, blk) == h.blks * blk;
  }

  lemma Distributes(a: int, b: int, n: int)
    ensures (a + b) * n == a * n + b * n
  {
  }

  lemma MultiplesAreApart(k: int, n: int)
    requires n > 0
    ensures k >= 1 ==> k * n >= n
    ensures k <= -1 ==> k * n <= -n
  {
  }

  lemma WholeBlocks(blks: nat, blk: nat)
    requires blk > 0
    ensures blks * blk % blk == 0 && blks * blk / blk == blks
  {
    var n: int := blks * blk;
    var q, r := n / blk, n % blk;
    assert n == q * blk + r;
    Distributes(blks - q, q, blk);
    MultiplesAreApart(blks - q, blk);
  }

  /** A header and a payload that go together are the storage of the chunk they stand for. */
  lemma ChunkIsStored(h: ChunkHeader, resv: nat, payload: seq<byte>, blk: nat)
    requires 0 < blk < TWO_TO_32 && h.blks < TWO_TO_32 && resv < 0x1_0000
    requires h.total == 12 + |payload| < TWO_TO_32
    requires h.kind in {RAW, FILL, DONTCARE, CRC32}
    requires h.kind == RAW ==> |payload| == h.blks * blk
    requires h.kind == FILL ==> |payload| == 4
    ensures var c := ChunkOf(h, resv, payload);
            && WellFormed(c, blk) && Payload(c) == payload
            && Header(c, blk) == ToLE(h.kind, 2) + ToLE(resv, 2) + ToLE(h.blks, 4) + ToLE(h.total, 4)
  {
    WholeBlocks(h.blks, blk);
  }

  lemma FirstChunk(data: seq<byte>, chunks: nat, blk: nat) returns (c: Chunk)
    requires 0 < blk < TWO_TO_32 && chunks > 0
    requires Rest(data, chunks, blk).complete && TotalsCoverHeaders(data, chunks)
    ensures var total := ParseChunkHeader(data).total;
            && WellFormed(c, blk) && total <= |data| && Encode(c, blk) == data[..total]
            && Rest(data[total..], chunks - 1, blk).complete && TotalsCoverHeaders(data[total..], chunks - 1)
  {
    var h := ParseChunkHeader(data);
    HeaderFields(data);
    UnbrokenChunk(h, data[12..], chunks - 1, blk);
    var payload := data[12..h.total];
    c := ChunkOf(h, FromLE(data[2..4]), payload);
    ChunkIsStored(h, FromLE(data[2..4]), payload, blk);
    assert data[12..][h.total - 12..] == data[h.total..];
    assert data[..h.total] == data[..12] + payload;
  }

  /** Whatever the reader takes to its end is the storage of some chunks, whose output it gives. */
  lemma {:induction false} CompleteIsStored(data: seq<byte>, chunks: nat, blk: nat)
    requires 0 < blk < TWO_TO_32
    requires Rest(data, chunks, blk).complete && TotalsCoverHeaders(data, chunks)
    ensures exists cs :: |cs| == chunks && Stores(data, cs, blk)
    decreases chunks
  {
    if chunks == 0 {
      assert Stores(data, [], blk);
    } else {
      var c := FirstChunk(data, chunks, blk);
      var total := ParseChunkHeader(data).total;
      CompleteIsStored(data[total..], chunks - 1, blk);
      var rest :| |rest| == chunks - 1 && Stores(data[total..], rest, blk);
      OneMoreStored(data, total, c, rest, blk);
      assert |[c] + rest| == chunks;
    }
  }

  lemma OneMoreStored(data: seq<byte>, total: nat, c: Chunk, rest: seq<Chunk>, blk: nat)
    requires blk > 0 && WellFormed(c, blk) && total <= |data| && Encode(c, blk) == data[..total]
    requires Stores(data[total..], rest, blk)
    ensures Stores(data, [c] + rest, blk)
  {
    var cs := [c] + rest;
    assert cs[1..] == rest;
    assert EncodeAll(cs, blk) == Encode(c, blk) + EncodeAll(rest, blk);
    assert data == data[..total] + data[total..];
    assert data[..total] + EncodeAll(rest, blk) <= data[..total] + data[total..];
  }

  lemma PrefixSplits(a: seq<byte>, b: seq<byte>, data: seq<byte>)
    requires a + b <= data
    ensures data == a + data[|a|..] && b <= data[|a|..]
  {
    assert data[..|a| + |b|] == a + b;
  }

  lemma {:induction false} StoredCoversHeaders(data: seq<byte>, cs: seq<Chunk>, blk: nat)
    requires Stores(data, cs, blk)
    ensures TotalsCoverHeaders(data, |cs|)
    decreases cs
  {
    if cs != [] {
      var first, rest := Encode(cs[0], blk), EncodeAll(cs[1..], blk);
      var tail := data[|first|..];
      PrefixSplits(first, rest, data);
      Assoc(Header(cs[0], blk), Payload(cs[0]), tail);
      HeaderParses(cs[0], blk, Payload(cs[0]) + tail);
      StoredCoversHeaders(tail, cs[1..], blk);
    }
  }

  /**
   Data is read to a bare end of file, by chunks no smaller than their headers,
   exactly when it stores that many well-formed chunks; and then the output is
   what the reader makes of those chunks.
   */
  lemma CompleteIffStored(data: seq<byte>, chunks: nat, blk: nat)
    requires 0 < blk < TWO_TO_32
    ensures Rest(data, chunks, blk).complete && TotalsCoverHeaders(data, chunks)
            <==> exists cs :: |cs| == chunks && Stores(data, cs, blk)
    ensures forall cs :: |cs| == chunks && Stores(data, cs, blk) ==> Rest(data, chunks, blk) == Stream(ActualAll(cs, blk), true)
  {
    forall cs | |cs| == chunks && Stores(data, cs, blk)
      ensures Rest(data, chunks, blk) == Stream(ActualAll(cs, blk), true) && TotalsCoverHeaders(data, chunks)
    {
      var trailing := data[|EncodeAll(cs, blk)|..];
      assert data == EncodeAll(cs, blk) + trailing;
      ReaderOutput(cs, blk, trailing);
      StoredCoversHeaders(data, cs, blk);
    }
    if Rest(data, chunks, blk).complete && TotalsCoverHeaders(data, chunks) {
      CompleteIsStored(data, chunks, blk);
    }
  }

  /** The size of an image: its chunks' block counts times the block size; checksum chunks add nothing. */
  function OutputBlks(cs: seq<Chunk>, blk: nat): nat
    requires blk > 0
  {
    if cs == [] then 0 else OutputBlksOf(cs[0], blk) + OutputBlks(cs[1..], blk)
  }

  function OutputBlksOf(c: Chunk, blk: nat): nat
    requires blk > 0
  {
    if c.Crc? then 0 else Blks(c, blk)
  }

  lemma {:induction false} ImageSize(cs: seq<Chunk>, blk: nat)
    requires AllWellFormed(cs, blk)
    ensures |MeaningAll(cs, blk)| == OutputBlks(cs, blk) * blk
  {
    if cs != [] {
      ImageSize(cs[1..], blk);
      ChunkSize(cs[0], blk);
      Distributes(OutputBlksOf(cs[0], blk), OutputBlks(cs[1..], blk), blk);
    }
  }

  lemma ChunkSize(c: Chunk, blk: nat)
    requires WellFormed(c, blk)
    ensures |Meaning(c, blk)| == OutputBlksOf(c, blk) * blk
  {
  }

  // ---- whole files ----

  /** A file: the fixed header, whatever extra header bytes it declares, the chunks. */
  function File(cs: seq<Chunk>, blk: nat, version: nat, chunkHdrSz: nat, extra: seq<byte>,
                totalBlks: nat, checksum: nat): seq<byte>
    requires blk > 0
  {
    FileHeader(|cs|, blk, version, chunkHdrSz, 28 + |extra|, totalBlks, checksum) + extra + EncodeAll(cs, blk)
  }

  function FileHeader(chunks: nat, blk: nat, version: nat, chunkHdrSz: nat, size: nat, totalBlks: nat, checksum: nat): (h: seq<byte>)
    ensures |h| == 28
  {
    ToLE(MAGIC, 4) + ToLE(version, 4) + ToLE(size, 2) + ToLE(chunkHdrSz, 2)
    + ToLE(blk, 4) + ToLE(totalBlks, 4) + ToLE(chunks, 4) + ToLE(checksum, 4)
  }

  lemma FileHeaderParses(chunks: nat, blk: nat, version: nat, chunkHdrSz: nat, size: nat, totalBlks: nat, checksum: nat, rest: seq<byte>)
    requires chunks < TWO_TO_32 && blk < TWO_TO_32 && size < 0x1_0000
    ensures var b := FileHeader(chunks, blk, version, chunkHdrSz, size, totalBlks, checksum) + rest;
            FromLE(b[0..4]) == MAGIC && FromLE(b[8..10]) == size
            && FromLE(b[12..16]) == blk && FromLE(b[20..24]) == chunks && b[28..] == rest
  {
    var b := FileHeader(chunks, blk, version, chunkHdrSz, size, totalBlks, checksum) + rest;
    assert b[0..4] == ToLE(MAGIC, 4);
    assert b[8..10] == ToLE(size, 2);
    assert b[12..16] == ToLE(blk, 4);
    assert b[20..24] == ToLE(chunks, 4);
    assert Pow256(2) == 0x1_0000;
    assert Pow256(4) == TWO_TO_32;
    FromToLE(MAGIC, 4);
    FromToLE(size, 2);
    FromToLE(blk, 4);
    FromToLE(chunks, 4);
  }

  /** What a file expands to, given what follows its header. */
  lemma HeaderOpens(chunks: nat, blk: nat, version: nat, chunkHdrSz: nat, extra: nat, totalBlks: nat, checksum: nat, rest: seq<byte>)
    requires chunks < TWO_TO_32 && 0 < blk < TWO_TO_32 && extra + 28 < 0x1_0000
    ensures Expand(FileHeader(chunks, blk, version, chunkHdrSz, 28 + extra, totalBlks, checksum) + rest)
         == if blk % 4 != 0 || |rest| < extra then BROKEN else Rest(rest[extra..], chunks, blk)
  {
    FileHeaderParses(chunks, blk, version, chunkHdrSz, 28 + extra, totalBlks, checksum, rest);
  }

  /** A stored file expands to its meaning exactly when its block size is a multiple of four and its outputs can be counted. */
  lemma FileExpands(cs: seq<Chunk>, blk: nat, version: nat, chunkHdrSz: nat, extra: seq<byte>, totalBlks: nat, checksum: nat)
    requires AllWellFormed(cs, blk) && |cs| < TWO_TO_32 && |extra| + 28 < 0x1_0000
    ensures Expand(File(cs, blk, version, chunkHdrSz, extra, totalBlks, checksum)) == Stream(MeaningAll(cs, blk), true)
            <==> blk % 4 == 0 && forall c :: c in cs ==> Countable(c, blk)
  {
    var f := File(cs, blk, version, chunkHdrSz, extra, totalBlks, checksum);
    var body := extra + EncodeAll(cs, blk);
    assert f == FileHeader(|cs|, blk, version, chunkHdrSz, 28 + |extra|, totalBlks, checksum) + body;
    HeaderOpens(|cs|, blk, version, chunkHdrSz, |extra|, totalBlks, checksum, body);
    assert body[|extra|..] == EncodeAll(cs, blk);
    assert EncodeAll(cs, blk) + [] == EncodeAll(cs, blk);
    ReadingInvertsWriting(cs, blk, []);
  }

  lemma FileLength(cs: seq<Chunk>, blk: nat, version: nat, chunkHdrSz: nat, extra: seq<byte>, totalBlks: nat, checksum: nat)
    requires blk > 0
    ensures |File(cs, blk, version, chunkHdrSz, extra, totalBlks, checksum)| == 28 + |extra| + |EncodeAll(cs, blk)|
  {
  }

  /** An error, never a bare end of file, behind some front part of these bytes. */
  predicate Noticed(r: Stream, all: seq<byte>) {
    !r.complete && r.bytes <= all
  }

  lemma CutHeaderIsNoticed(data: seq<byte>, all: seq<byte>)
    requires |data| < 28
    ensures Noticed(Expand(data), all)
  {
  }

  lemma CutExtraIsNoticed(data: seq<byte>, chunks: nat, blk: nat, version: nat, chunkHdrSz: nat, extra: nat,
                          totalBlks: nat, checksum: nat, rest: seq<byte>, all: seq<byte>)
    requires chunks < TWO_TO_32 && 0 < blk < TWO_TO_32 && |rest| < extra && extra + 28 < 0x1_0000
    requires data == FileHeader(chunks, blk, version, chunkHdrSz, 28 + extra, totalBlks, checksum) + rest
    ensures Noticed(Expand(data), all)
  {
    HeaderOpens(chunks, blk, version, chunkHdrSz, extra, totalBlks, checksum, rest);
  }

  lemma CutChunksAreNoticed(data: seq<byte>, cs: seq<Chunk>, blk: nat, version: nat, chunkHdrSz: nat, extra: seq<byte>,
                            totalBlks: nat, checksum: nat, k: nat)
    requires AllWellFormed(cs, blk) && |cs| < TWO_TO_32 && |extra| + 28 < 0x1_0000 && k < |EncodeAll(cs, blk)|
    requires data == FileHeader(|cs|, blk, version, chunkHdrSz, 28 + |extra|, totalBlks, checksum)
                     + (extra + EncodeAll(cs, blk)[..k])
    ensures Noticed(Expand(data), ActualAll(cs, blk))
  {
    var cut := EncodeAll(cs, blk)[..k];
    HeaderOpens(|cs|, blk, version, chunkHdrSz, |extra|, totalBlks, checksum, extra + cut);
    assert (extra + cut)[|extra|..] == cut;
    TruncationIsNoticed(cs, blk, k);
  }

  /** A file cut short anywhere, in its header, its extra header bytes or its chunks, is never taken to its end. */
  lemma FileTruncationIsNoticed(cs: seq<Chunk>, blk: nat, version: nat, chunkHdrSz: nat, extra: seq<byte>,
                                totalBlks: nat, checksum: nat, k: nat)
    requires AllWellFormed(cs, blk) && |cs| < TWO_TO_32 && |extra| + 28 < 0x1_0000
    requires k < |File(cs, blk, version, chunkHdrSz, extra, totalBlks, checksum)|
    ensures Noticed(Expand(File(cs, blk, version, chunkHdrSz, extra, totalBlks, checksum)[..k]), ActualAll(cs, blk))
  {
    var data := File(cs, blk, version, chunkHdrSz, extra, totalBlks, checksum)[..k];
    FileLength(cs, blk, version, chunkHdrSz, extra, totalBlks, checksum);
    FrontOfThree(FileHeader(|cs|, blk, version, chunkHdrSz, 28 + |extra|, totalBlks, checksum), extra, EncodeAll(cs, blk), k);
    if k < 28 {
      CutHeaderIsNoticed(data, ActualAll(cs, blk));
    } else if k < 28 + |extra| {
      CutExtraIsNoticed(data, |cs|, blk, version, chunkHdrSz, |extra|, totalBlks, checksum, extra[..k - 28], ActualAll(cs, blk));
    } else {
      CutChunksAreNoticed(data, cs, blk, version, chunkHdrSz, extra, totalBlks, checksum, k - 28 - |extra|);
    }
  }

  lemma FrontOfThree(a: seq<byte>, b: seq<byte>, c: seq<byte>, k: nat)
    requires k <= |a + b + c|
    ensures |a| <= k <= |a| + |b| ==> (a + b + c)[..k] == a + b[..k - |a|]
    ensures |a| + |b| <= k ==> (a + b + c)[..k] == a + (b + c[..k - |a| - |b|])
  {
  }

  // ---- the format, byte by byte ----

  lemma TwoBytes(v: nat)
    requires v < 0x1_0000
    ensures ToLE(v, 2) == [v % 256, v / 256]
  {
    assert ToLE(v / 256, 1) == [v / 256] + ToLE(0, 0);
  }

  lemma FourBytes(v: nat)
    requires v < TWO_TO_32
    ensures ToLE(v, 4) == [v % 256, v / 256 % 256, v / 0x1_0000 % 256, v / 0x100_0000]
  {
    TwoBytes(v / 0x1_0000);
    assert ToLE(v / 256, 3) == [v / 256 % 256] + ToLE(v / 0x1_0000, 2);
  }

  function KindByte(c: Chunk): byte {
    match c
    case Raw(_, _) => 0xc1
    case Fill(_, _, _) => 0xc2
    case DontCare(_, _, _) => 0xc3
    case Crc(_, _, _) => 0xc4
  }

  /** A chunk header: kind, reserved, block count, total size, each lowest byte first. */
  lemma ChunkHeaderBytes(c: Chunk, blk: nat)
    requires WellFormed(c, blk)
    ensures var n, t := Blks(c, blk), 12 + |Payload(c)|;
            Header(c, blk) == [KindByte(c), 0xca, c.resv % 256, c.resv / 256,
                               n % 256, n / 256 % 256, n / 0x1_0000 % 256, n / 0x100_0000,
                               t % 256, t / 256 % 256, t / 0x1_0000 % 256, t / 0x100_0000]
  {
    TwoBytes(Kind(c));
    TwoBytes(c.resv);
    FourBytes(Blks(c, blk));
    FourBytes(12 + |Payload(c)|);
  }

  lemma SmallBytes(v: nat)
    requires v < 256
    ensures ToLE(v, 2) == [v, 0] && ToLE(v, 4) == [v, 0, 0, 0]
  {
    TwoBytes(v);
    FourBytes(v);
  }

  lemma MagicBytes()
    ensures ToLE(MAGIC, 4) == [0x3a, 0xff, 0x26, 0xed]
  {
    FourBytes(MAGIC);
  }

  /** The header of a file with small fields, byte by byte. */
  lemma FileHeaderBytes(chunks: nat, blk: nat, size: nat, totalBlks: nat)
    requires chunks < 256 && blk < 256 && size < 256 && totalBlks < 256
    ensures FileHeader(chunks, blk, 1, 12, size, totalBlks, 0)
         == [0x3a, 0xff, 0x26, 0xed] + [1, 0, 0, 0] + [size, 0] + [12, 0]
            + [blk, 0, 0, 0] + [totalBlks, 0, 0, 0] + [chunks, 0, 0, 0] + [0, 0, 0, 0]
  {
    MagicBytes();
    SmallBytes(1);
    SmallBytes(size);
    SmallBytes(12);
    SmallBytes(blk);
    SmallBytes(totalBlks);
    SmallBytes(chunks);
    SmallBytes(0);
  }

  /** Without the magic bytes, a whole header, or a block size in words nothing is read at all. */
  lemma OpenRefuses(data: seq<byte>)
    requires |data| >= 28 ==> data[0..4] != [0x3a, 0xff, 0x26, 0xed] || FromLE(data[12..16]) == 0 || FromLE(data[12..16]) % 4 != 0
    ensures Open(data).None?
  {
    if |data| >= 28 {
      ToFromLE(data[0..4]);
      MagicBytes();
    }
  }
}
