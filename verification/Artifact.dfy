/**
 The .wendy artifact: a tar with the manifest first and one compressed payload.
 Packing a raw or sparse image and reading it back.
 */
module Artifact {
  import opened Basics
  import opened LittleEndian
  import SparseFormat
  import SparseReader

  type Digest = string

  datatype Payload = Payload(name: string, size: int, sha256: Digest, compressedSha256: Digest, compression: string)

  datatype Manifest = Manifest(formatVersion: int, name: string, version: string, devices: seq<string>,
                               payload: Payload, bootloaderUpdate: bool, minTool: string)

  /** A tar member under its normalized name. */
  datatype Member = Member(name: string, bytes: seq<byte>)

  /** The codecs, the hash and JSON, which the tool takes from libraries; `text` is what JSON hands back for a string. */
  datatype Codecs = Codecs(compress: (string, seq<byte>) -> seq<byte>,
                           decompress: (string, seq<byte>) -> Option<seq<byte>>,
                           sha: seq<byte> -> Digest,
                           marshal: Manifest -> seq<byte>,
                           unmarshal: seq<byte> -> Option<Manifest>,
                           text: string -> string)

  /** The largest manifest a reader takes. */
  const MAX_MANIFEST := 0x40_0000

  predicate Supported(compression: string) {
    compression == "zstd" || compression == "gzip" || compression == "none"
  }

  predicate Ascii(s: string) {
    forall i :: 0 <= i < |s| ==> s[i] as int < 128
  }

  /** A manifest after its way through JSON, which replaces what is not valid UTF-8. */
  function Carried(m: Manifest, text: string -> string): Manifest {
    var p := m.payload;
    Manifest(m.formatVersion, text(m.name), text(m.version), seq(|m.devices|, i requires 0 <= i < |m.devices| => text(m.devices[i])),
             Payload(text(p.name), p.size, text(p.sha256), text(p.compressedSha256), text(p.compression)),
             m.bootloaderUpdate, text(m.minTool))
  }

  /**
   Decompression undoes compression, a digest prints as 64 ASCII characters, and
   JSON returns a manifest with ASCII strings unharmed and no other string emptied.
   */
  ghost predicate Sound(c: Codecs) {
    && (forall k, b :: Supported(k) ==> c.decompress(k, c.compress(k, b)) == Some(b))
    && (forall b :: |c.sha(b)| == 64 && Ascii(c.sha(b)))
    && (forall m :: c.unmarshal(c.marshal(m)) == Some(Carried(m, c.text)))
    && (forall s :: Ascii(s) ==> c.text(s) == s)
    && (forall s :: c.text(s) == "" ==> s == "")
  }

  predicate ValidManifest(m: Manifest) {
    && m.formatVersion == 1
    && m.name != "" && m.version != "" && m.devices != []
    && m.payload.name != ""
    && |m.payload.sha256| == 64
    && Supported(m.payload.compression)
  }

  // ---- packing ----

  datatype PackOptions = PackOptions(base: string, name: string, version: string, devices: seq<string>,
                                     compression: string, bootloaderUpdate: bool, minTool: string)

  function TrimSuffix(s: string, suffix: string): string {
    if |suffix| <= |s| && s[|s| - |suffix|..] == suffix then s[..|s| - |suffix|] else s
  }

  function PayloadName(base: string, compression: string): string {
    var raw := TrimSuffix(base, ".simg");
    if compression == "zstd" then raw + ".zst" else if compression == "gzip" then raw + ".gz" else raw
  }

  predicate LooksSparse(file: seq<byte>) {
    |file| >= 4 && FromLE(file[0..4]) == SparseFormat.MAGIC
  }

  /** The raw image a file stands for; none when a sparse image is damaged. */
  function RawImage(file: seq<byte>): Option<seq<byte>> {
    if !LooksSparse(file) then Some(file)
    else if SparseFormat.Expand(file).complete then Some(SparseFormat.Expand(file).bytes) else None
  }

  function Compression(o: PackOptions): string {
    if o.compression == "" then "zstd" else o.compression
  }

  function ManifestOf(o: PackOptions, raw: seq<byte>, stored: seq<byte>, c: Codecs): Manifest {
    Manifest(1, o.name, o.version, o.devices,
             Payload(PayloadName(o.base, Compression(o)), |raw|, c.sha(raw), c.sha(stored), Compression(o)),
             o.bootloaderUpdate, o.minTool)
  }

  function Packed(file: seq<byte>, o: PackOptions, c: Codecs): Option<seq<Member>> {
    match RawImage(file)
    case None => None
    case Some(raw) =>
      if !Supported(Compression(o)) then None
      else
        var stored := c.compress(Compression(o), raw);
        var m := ManifestOf(o, raw, stored, c);
        if !ValidManifest(m) then None
        else Some([Member("manifest.json", c.marshal(m)), Member(m.payload.name, stored)])
  }

  /** MaybeSparseReader and the copy out of it, with buffers of any size. */
  method ReadImage(file: seq<byte>, sizes: nat -> nat) returns (raw: Option<seq<byte>>)
    ensures raw == RawImage(file)
  {
    if |file| < 4 || FromLE(file[0..4]) != SparseFormat.MAGIC { return Some(file); }
    var src := new SparseReader.Source(file, false);
    var reader := SparseReader.NewReader(src);
    if reader.None? { return None; }
    var out, err := SparseReader.CopyAll(reader.value, sizes);
    return if err == SparseReader.Eof then Some(out) else None;
  }

  method Pack(file: seq<byte>, o: PackOptions, c: Codecs, sizes: nat -> nat) returns (tar: Option<seq<Member>>)
    ensures tar == Packed(file, o, c)
  {
    var raw := ReadImage(file, sizes);
    if raw.None? { return None; }
    var compression := if o.compression == "" then "zstd" else o.compression;
    if !Supported(compression) { return None; }
    var stored := c.compress(compression, raw.value);
    var m := Manifest(1, o.name, o.version, o.devices,
                      Payload(PayloadName(o.base, compression), |raw.value|, c.sha(raw.value), c.sha(stored), compression),
                      o.bootloaderUpdate, o.minTool);
    if !ValidManifest(m) { return None; }
    return Some([Member("manifest.json", c.marshal(m)), Member(m.payload.name, stored)]);
  }

  // ---- reading ----

  /** The first member that is not the reserved signature, if it is the payload. */
  function FindPayload(members: seq<Member>, name: string): Option<seq<byte>> {
    if members == [] then None
    else if members[0].name == "manifest.sig" then FindPayload(members[1..], name)
    else if members[0].name != name then None
    else Some(members[0].bytes)
  }

  class Reader {
    const manifest: Manifest
    const members: seq<Member> // the rest of the tar stream, at Open
    var next: nat
    var payloadTaken: bool
    var teed: seq<byte> // what the compressed digest has seen

    ghost predicate Valid()
      reads this
    {
      next <= |members|
    }

    constructor (manifest: Manifest, members: seq<Member>)
      ensures Valid() && this.manifest == manifest && this.members == members
      ensures next == 0 && !payloadTaken
    {
      this.manifest, this.members := manifest, members;
      next, payloadTaken, teed := 0, false, [];
    }

    /** Payload: may be called once; the bytes it hands out are teed into the digest. */
    method TakePayload() returns (stored: Option<seq<byte>>)
      requires Valid()
      modifies this
      ensures Valid()
      ensures stored == if old(payloadTaken) then None else FindPayload(members[old(next)..], manifest.payload.name)
      ensures stored.Some? ==> payloadTaken && teed == stored.value
    {
      if payloadTaken { return None; }
      while next < |members|
        invariant Valid() && !payloadTaken
        invariant FindPayload(members[next..], manifest.payload.name)
               == FindPayload(members[old(next)..], manifest.payload.name)
      {
        var m := members[next];
        assert members[next..][0] == m && members[next..][1..] == members[next + 1..];
        next := next + 1;
        if m.name == "manifest.sig" { continue; }
        if m.name != manifest.payload.name { return None; }
        payloadTaken, teed := true, m.bytes;
        return Some(m.bytes);
      }
      assert members[next..] == [];
      return None;
    }

    method VerifyPayloadDigests(c: Codecs, plainDigest: Digest) returns (ok: bool)
      ensures ok <==> payloadTaken && plainDigest == manifest.payload.sha256
                      && (manifest.payload.compressedSha256 != "" ==> c.sha(teed) == manifest.payload.compressedSha256)
    {
      if !payloadTaken { return false; }
      if plainDigest != manifest.payload.sha256 { return false; }
      return manifest.payload.compressedSha256 == "" || c.sha(teed) == manifest.payload.compressedSha256;
    }
  }

  /** The manifest in front of a tar, if it is there, not too large, and valid. */
  function ReadManifest(tar: seq<Member>, c: Codecs): Option<Manifest> {
    if tar == [] || tar[0].name != "manifest.json" || |tar[0].bytes| > MAX_MANIFEST then None
    else
      match c.unmarshal(tar[0].bytes)
      case None => None
      case Some(m) => if ValidManifest(m) then Some(m) else None
  }

  method OpenArtifact(tar: seq<Member>, c: Codecs) returns (r: Option<Reader>)
    ensures r.Some? <==> ReadManifest(tar, c).Some?
    ensures r.Some? ==> fresh(r.value) && r.value.Valid() && ReadManifest(tar, c) == Some(r.value.manifest)
                        && r.value.members == tar[1..] && r.value.next == 0 && !r.value.payloadTaken
  {
    if tar == [] || tar[0].name != "manifest.json" { return None; }
    if |tar[0].bytes| > MAX_MANIFEST { return None; }
    var m := c.unmarshal(tar[0].bytes);
    if m.None? || !ValidManifest(m.value) { return None; }
    var reader := new Reader(m.value, tar[1..]);
    return Some(reader);
  }

  /** The plain image of a tar whose size and digests all agree with its manifest. */
  function Verified(tar: seq<Member>, c: Codecs): Option<seq<byte>> {
    match ReadManifest(tar, c)
    case None => None
    case Some(m) =>
      var p := m.payload;
      match FindPayload(tar[1..], p.name)
      case None => None
      case Some(stored) =>
        match c.decompress(p.compression, stored)
        case None => None
        case Some(plain) =>
          if |plain| == p.size && c.sha(plain) == p.sha256
             && (p.compressedSha256 != "" ==> c.sha(stored) == p.compressedSha256)
          then Some(plain) else None
  }

  /** verifyPacked: read the artifact the way a device would. */
  method VerifyPacked(tar: seq<Member>, c: Codecs) returns (plain: Option<seq<byte>>)
    ensures plain == Verified(tar, c)
  {
    var r := OpenArtifact(tar, c);
    if r.None? { return None; }
    var reader := r.value;
    assert reader.members[0..] == tar[1..];
    var stored := reader.TakePayload();
    if stored.None? { return None; }
    plain := c.decompress(reader.manifest.payload.compression, stored.value);
    if plain.None? { return None; }
    if |plain.value| != reader.manifest.payload.size { return None; }
    var ok := reader.VerifyPayloadDigests(c, c.sha(plain.value));
    if !ok { return None; }
  }

  // ---- round trip ----

  /** The stored name is not the reserved one and survives JSON, and the manifest is not too large to be read. */
  predicate Readable(tar: seq<Member>, o: PackOptions, c: Codecs)
    requires tar != []
  {
    var name := PayloadName(o.base, Compression(o));
    name != "manifest.sig" && c.text(name) == name && |tar[0].bytes| <= 4 * 1024 * 1024
  }

  /** What is packed reads back as the raw image, with size and digests verified, if and only if it is readable. */
  lemma PackedReadsBack(file: seq<byte>, o: PackOptions, c: Codecs)
    requires Sound(c) && Packed(file, o, c).Some?
    ensures var tar := Packed(file, o, c).value;
            Verified(tar, c) == if Readable(tar, o, c) then RawImage(file) else None
  {
    var raw := RawImage(file).value;
    var stored := c.compress(Compression(o), raw);
    var name := PayloadName(o.base, Compression(o));
    var tar := Packed(file, o, c).value;
    ManifestReadsBack(ManifestOf(o, raw, stored, c), c);
    assert tar[1..] == [Member(name, stored)];
    FindOnly(Member(name, stored), c.text(name));
  }

  /** JSON may change names, but neither digests nor the compression, and it keeps a manifest valid. */
  lemma ManifestReadsBack(m: Manifest, c: Codecs)
    requires Sound(c) && ValidManifest(m) && Ascii(m.payload.sha256) && Ascii(m.payload.compressedSha256)
    ensures var read := c.unmarshal(c.marshal(m));
            && read.Some? && ValidManifest(read.value)
            && read.value.payload == m.payload.(name := c.text(m.payload.name))
  {
    assert Ascii(m.payload.compression);
  }

  /** And that name can only come from storing an image called manifest.sig without compression. */
  lemma ReservedNameNeedsNoCompression(o: PackOptions)
    requires Supported(Compression(o))
    ensures PayloadName(o.base, Compression(o)) == "manifest.sig"
            <==> Compression(o) == "none" && TrimSuffix(o.base, ".simg") == "manifest.sig"
  {
    var raw := TrimSuffix(o.base, ".simg");
    var name := PayloadName(o.base, Compression(o));
    if Compression(o) == "zstd" {
      assert name[|name| - 1] == 't';
    } else if Compression(o) == "gzip" {
      assert name[|name| - 1] == 'z';
    }
  }

  /** Packing a stored sparse image and reading it back yields the image the chunks describe, if and only if it is readable and countable. */
  lemma SparseReadsBackExpanded(cs: seq<SparseFormat.Chunk>, blk: nat, version: nat, chunkHdrSz: nat, extra: seq<byte>,
                                totalBlks: nat, checksum: nat, o: PackOptions, c: Codecs)
    requires SparseFormat.AllWellFormed(cs, blk) && |cs| < SparseFormat.TWO_TO_32 && |extra| + 28 < 0x1_0000
    requires Sound(c) && Packed(SparseFormat.File(cs, blk, version, chunkHdrSz, extra, totalBlks, checksum), o, c).Some?
    ensures var tar := Packed(SparseFormat.File(cs, blk, version, chunkHdrSz, extra, totalBlks, checksum), o, c).value;
            Verified(tar, c) == Some(SparseFormat.MeaningAll(cs, blk))
            <==> Readable(tar, o, c) && forall k :: k in cs ==> SparseFormat.Countable(k, blk)
  {
    var file := SparseFormat.File(cs, blk, version, chunkHdrSz, extra, totalBlks, checksum);
    SparseFormat.FileExpands(cs, blk, version, chunkHdrSz, extra, totalBlks, checksum);
    FileLooksSparse(cs, blk, version, chunkHdrSz, extra, totalBlks, checksum);
    PackedReadsBack(file, o, c);
  }

  lemma FileLooksSparse(cs: seq<SparseFormat.Chunk>, blk: nat, version: nat, chunkHdrSz: nat, extra: seq<byte>,
                        totalBlks: nat, checksum: nat)
    requires SparseFormat.AllWellFormed(cs, blk) && |cs| < SparseFormat.TWO_TO_32 && |extra| + 28 < 0x1_0000
    ensures var file := SparseFormat.File(cs, blk, version, chunkHdrSz, extra, totalBlks, checksum);
            LooksSparse(file) && (blk % 4 != 0 ==> !SparseFormat.Expand(file).complete)
  {
    var file := SparseFormat.File(cs, blk, version, chunkHdrSz, extra, totalBlks, checksum);
    var header := SparseFormat.FileHeader(|cs|, blk, version, chunkHdrSz, 28 + |extra|, totalBlks, checksum);
    var rest := extra + SparseFormat.EncodeAll(cs, blk);
    assert file == header + rest;
    SparseFormat.FileHeaderParses(|cs|, blk, version, chunkHdrSz, 28 + |extra|, totalBlks, checksum, rest);
    SparseFormat.HeaderOpens(|cs|, blk, version, chunkHdrSz, |extra|, totalBlks, checksum, rest);
  }

  // ---- what is refused ----

  /** The i-th member is the payload, and only reserved signatures come before it. */
  predicate PayloadAt(members: seq<Member>, name: string, stored: seq<byte>, i: nat) {
    i < |members| && members[i] == Member(name, stored) && forall j :: 0 <= j < i ==> members[j].name == "manifest.sig"
  }

  lemma {:induction false} FindPayloadIff(members: seq<Member>, name: string, stored: seq<byte>)
    ensures FindPayload(members, name) == Some(stored)
            <==> name != "manifest.sig" && exists i: nat :: PayloadAt(members, name, stored, i)
  {
    if members != [] {
      var rest := members[1..];
      FindPayloadIff(rest, name, stored);
      if members[0].name == "manifest.sig" {
        if i: nat :| PayloadAt(rest, name, stored, i) {
          assert forall j :: 0 <= j < i + 1 ==> j == 0 || members[j] == rest[j - 1];
          assert PayloadAt(members, name, stored, i + 1);
        }
        if i: nat :| PayloadAt(members, name, stored, i) && i > 0 {
          assert forall j :: 0 <= j < i - 1 ==> rest[j] == members[j + 1];
          assert PayloadAt(rest, name, stored, i - 1);
        }
      } else if members[0] == Member(name, stored) {
        assert PayloadAt(members, name, stored, 0);
      }
    }
  }

  /** Whatever verifies is, in size and in both digests, what its manifest declares. */
  lemma VerifiedIsAsDeclared(tar: seq<Member>, c: Codecs)
    requires Verified(tar, c).Some?
    ensures tar[0].name == "manifest.json" && |tar[0].bytes| <= 4 * 1024 * 1024
    ensures var plain, m := Verified(tar, c).value, c.unmarshal(tar[0].bytes).value;
            && ValidManifest(m) && |plain| == m.payload.size && c.sha(plain) == m.payload.sha256
            && exists stored, i: nat :: PayloadAt(tar[1..], m.payload.name, stored, i)
                 && c.decompress(m.payload.compression, stored) == Some(plain)
                 && (m.payload.compressedSha256 != "" ==> c.sha(stored) == m.payload.compressedSha256)
  {
    var m := ReadManifest(tar, c).value;
    FindPayloadIff(tar[1..], m.payload.name, FindPayload(tar[1..], m.payload.name).value);
  }

  lemma FindOnly(member: Member, name: string)
    ensures FindPayload([member], name)
         == if member.name == name && name != "manifest.sig" then Some(member.bytes) else None
  {
    assert [member][1..] == [] && FindPayload([], name) == None;
  }

  /** A packed artifact whose stored payload is replaced by bytes with another digest is refused. */
  lemma TamperedPayloadIsRefused(file: seq<byte>, o: PackOptions, c: Codecs, other: seq<byte>)
    requires Sound(c) && Packed(file, o, c).Some?
    requires c.sha(other) != c.sha(Packed(file, o, c).value[1].bytes)
    ensures Verified([Packed(file, o, c).value[0], Packed(file, o, c).value[1].(bytes := other)], c).None?
  {
    var tar := Packed(file, o, c).value;
    var m := ManifestOf(o, RawImage(file).value, tar[1].bytes, c);
    ManifestReadsBack(m, c);
    var read := c.unmarshal(tar[0].bytes).value;
    assert |c.sha(tar[1].bytes)| == 64 && read.payload.compressedSha256 == c.sha(tar[1].bytes);
    var replaced := [tar[0], tar[1].(bytes := other)];
    assert replaced[1..] == [tar[1].(bytes := other)];
    FindOnly(tar[1].(bytes := other), read.payload.name);
    assert ReadManifest(replaced, c).Some? ==> ReadManifest(replaced, c) == Some(read);
  }

  /** And so is one with any member but a signature before the payload. */
  lemma UnexpectedMemberIsRefused(m: Manifest, first: Member, extra: Member, rest: seq<Member>, c: Codecs)
    requires ReadManifest([first, extra] + rest, c) == Some(m)
    requires extra.name != m.payload.name && extra.name != "manifest.sig"
    ensures Verified([first, extra] + rest, c).None?
  {
    assert ([first, extra] + rest)[1..][0] == extra;
  }

  /** Packing works exactly for a readable image, a known codec, and a name, a version, a device and a file name to record. */
  lemma PackSucceedsIff(file: seq<byte>, o: PackOptions, c: Codecs)
    requires Sound(c)
    ensures Packed(file, o, c).Some?
            <==> && RawImage(file).Some? && o.compression in {"", "zstd", "gzip", "none"}
                 && o.name != "" && o.version != "" && o.devices != []
                 && (o.compression == "none" ==> TrimSuffix(o.base, ".simg") != "")
    ensures Packed(file, o, c).Some? ==>
              var tar := Packed(file, o, c).value;
              |tar| == 2 && tar[0].name == "manifest.json" && tar[1].name == PayloadName(o.base, if o.compression == "" then "zstd" else o.compression)
  {
  }

  /** The stored name says what is stored: the raw image, compressed. */
  lemma StoredNames(base: string, compression: string)
    ensures PayloadName(base + ".simg", "zstd") == base + ".zst"
    ensures PayloadName(base + ".simg", "gzip") == base + ".gz"
    ensures PayloadName(base + ".simg", "none") == base
    ensures PayloadName("rootfs.ext4", "zstd") == "rootfs.ext4.zst"
  {
    assert (base + ".simg")[|base|..] == ".simg" && (base + ".simg")[..|base|] == base;
  }
}
