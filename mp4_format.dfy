// The byte layout that src/parsers/mp4.py decodes, as functions from the
// resource's content and a cursor position to the decoded value and the
// cursor after it (boxes of ISO/IEC 14496-12, the ISO base media file format).

module Mp4Format {

  import opened Bytes
  import opened Results
  import opened Input
  import opened Scan

  const FTYP: seq<byte> := [0x66, 0x74, 0x79, 0x70]  // "ftyp"
  const MOOV: seq<byte> := [0x6d, 0x6f, 0x6f, 0x76]  // "moov"
  const MVHD: seq<byte> := [0x6d, 0x76, 0x68, 0x64]  // "mvhd"

  /** `FTYP_CONSEQUENCE_TYPES`: the major brands an mp4 file may declare. */
  const FTYP_CONSEQUENCE_TYPES: seq<seq<byte>> := [
    [0x61, 0x76, 0x63, 0x31],  // "avc1"
    [0x69, 0x73, 0x6f, 0x32],  // "iso2"
    [0x69, 0x73, 0x6f, 0x6d],  // "isom"
    [0x6d, 0x6d, 0x70, 0x34],  // "mmp4"
    [0x6d, 0x70, 0x34, 0x31],  // "mp41"
    [0x6d, 0x70, 0x34, 0x32],  // "mp42"
    [0x4e, 0x44, 0x53, 0x43],  // "NDSC"
    [0x4e, 0x44, 0x53, 0x48],  // "NDSH"
    [0x4e, 0x44, 0x53, 0x4d],  // "NDSM"
    [0x4e, 0x44, 0x53, 0x50],  // "NDSP"
    [0x4e, 0x44, 0x53, 0x53],  // "NDSS"
    [0x4e, 0x44, 0x58, 0x43],  // "NDXC"
    [0x4e, 0x44, 0x58, 0x48],  // "NDXH"
    [0x4e, 0x44, 0x58, 0x4d],  // "NDXM"
    [0x4e, 0x44, 0x58, 0x50],  // "NDXP"
    [0x4e, 0x44, 0x58, 0x53]   // "NDXS"
  ]

  // ---------------------------------------------------------------------------
  // The mp4 probe

  /** What the mp4 `type_checking_passed` answers when it starts at `p`: scan
      `maxBytes / 4` words for "ftyp" and look at the one word after the first. */
  function Mp4Probe(c: seq<byte>, p: nat, maxBytes: nat): bool {
    match FindAlignedWord(c, p, maxBytes / 4, FTYP)
    case None => false
    case Some(k) => WordAt(c, p, k + 1) in FTYP_CONSEQUENCE_TYPES
  }

  /** The first aligned "ftyp" word within the budget, if any, is followed by
      `brand`: the shape both the mp4 and the mov probe accept. */
  ghost predicate FirstFtypThen(c: seq<byte>, p: nat, words: nat, accepts: seq<byte> -> bool) {
    exists k :: 0 <= k < words && WordAt(c, p, k) == FTYP
      && (forall j :: 0 <= j < k ==> WordAt(c, p, j) != FTYP)
      && accepts(WordAt(c, p, k + 1))
  }

  /** The mp4 probe passes exactly when the first aligned "ftyp" word within the
      budget is followed by one of the mp4 brands. */
  lemma {:induction false} Mp4ProbeMeaning(c: seq<byte>, p: nat, maxBytes: nat)
    ensures Mp4Probe(c, p, maxBytes) <==>
      FirstFtypThen(c, p, maxBytes / 4, w => w in FTYP_CONSEQUENCE_TYPES)
  {
    FirstFtypUnique(c, p, maxBytes / 4, w => w in FTYP_CONSEQUENCE_TYPES);
  }

  /** The probe's answer once the first "ftyp" word is known to be word `k`. */
  lemma {:induction false} Mp4ProbeAt(c: seq<byte>, p: nat, maxBytes: nat, k: nat)
    requires k < maxBytes / 4 && WordAt(c, p, k) == FTYP
    requires forall j :: 0 <= j < k ==> WordAt(c, p, j) != FTYP
    ensures Mp4Probe(c, p, maxBytes) == (WordAt(c, p, k + 1) in FTYP_CONSEQUENCE_TYPES)
  {
    FindAlignedWordFirst(c, p, maxBytes / 4, FTYP, k);
  }

  /** The probe fails when no word within the budget is "ftyp". */
  lemma {:induction false} Mp4ProbeAbsent(c: seq<byte>, p: nat, maxBytes: nat)
    requires forall j :: 0 <= j < maxBytes / 4 ==> WordAt(c, p, j) != FTYP
    ensures !Mp4Probe(c, p, maxBytes)
  {
    FindAlignedWordAbsent(c, p, maxBytes / 4, FTYP);
  }

  /** `FirstFtypThen` speaks of the word the scan finds. */
  lemma {:induction false} FirstFtypUnique(c: seq<byte>, p: nat, words: nat, accepts: seq<byte> -> bool)
    ensures FirstFtypThen(c, p, words, accepts) <==>
      (FindAlignedWord(c, p, words, FTYP).Some? &&
       accepts(WordAt(c, p, FindAlignedWord(c, p, words, FTYP).value + 1)))
  {
    var found := FindAlignedWord(c, p, words, FTYP);
    if found.Some? {
      FindAlignedWordFound(c, p, words, FTYP, found.value);
    } else {
      FindAlignedWordNone(c, p, words, FTYP);
    }
    if FirstFtypThen(c, p, words, accepts) {
      var k :| 0 <= k < words && WordAt(c, p, k) == FTYP
        && (forall j :: 0 <= j < k ==> WordAt(c, p, j) != FTYP)
        && accepts(WordAt(c, p, k + 1));
      assert found.Some?;
      assert found.value == k;
    }
  }

  // ---------------------------------------------------------------------------
  // Box headers (section 4.2 of ISO/IEC 14496-12)

  /** `(box_size, box_type, offset)`: the box's total size, its 4-byte type and
      the length of its header (8, or 16 with a 64-bit large size). */
  datatype BoxHeader = BoxHeader(size: nat, boxType: seq<byte>, offset: nat)

  /** What `read_box_size_and_type` decodes at `p`. */
  function BoxHeaderAt(c: seq<byte>, p: nat): (r: Result<Parsed<BoxHeader>>)
    ensures r.Success? ==>
      && |r.value.value.boxType| == 4
      && (r.value.value.offset == 8 || r.value.value.offset == 16)
      && r.value.next == p + r.value.value.offset <= |c|
      && (r.value.value.offset == 16 <==> BigEndianAt(c, p, 4) == 1)
  {
    // `read_int(4)` then `read_str(4)`: either one coming up short is a short read
    if p + 8 > |c| then Failure(ShortRead)
    else if BigEndianAt(c, p, 4) != 1 then
      Success(Parsed(BoxHeader(BigEndianAt(c, p, 4), c[p + 4..p + 8], 8), p + 8))
    else if p + 16 > |c| then Failure(ShortRead)
    else Success(Parsed(BoxHeader(BigEndianAt(c, p + 8, 8), c[p + 4..p + 8], 16), p + 16))
  }

  /** A header that the box-header codec can write and read back: the compact
      form carries a 32-bit size other than 1, the large form any 64-bit size. */
  predicate Encodable(h: BoxHeader) {
    && |h.boxType| == 4
    && ((h.offset == 8 && h.size != 1 && h.size < Pow256(4)) || (h.offset == 16 && h.size < Pow256(8)))
  }

  function EncodeBoxHeader(h: BoxHeader): (bs: seq<byte>)
    requires Encodable(h)
    ensures |bs| == h.offset
  {
    if h.offset == 8 then ToBigEndian(h.size, 4) + h.boxType
    else ToBigEndian(1, 4) + h.boxType + ToBigEndian(h.size, 8)
  }

  /** `x` is laid out in `c` from position `q` on. */
  predicate At(c: seq<byte>, q: nat, x: seq<byte>) {
    q + |x| <= |c| && c[q..q + |x|] == x
  }

  lemma {:induction false} Peel(c: seq<byte>, q: nat, x: seq<byte>, y: seq<byte>)
    requires At(c, q, x + y)
    ensures At(c, q, x) && At(c, q + |x|, y)
  {
    assert c[q..q + |x|] == (x + y)[..|x|];
    assert c[q + |x|..q + |x| + |y|] == (x + y)[|x|..];
  }

  lemma {:induction false} IntAtEncoded(c: seq<byte>, q: nat, v: nat, k: nat)
    requires v < Pow256(k) && At(c, q, ToBigEndian(v, k))
    ensures Decodes(IntAt(c, q, k), v, q + k)
  {
    BigEndianAtSlice(c, q, k);
  }

  /** Decoding an encoded header gives it back, with the cursor just after it. */
  lemma {:induction false} BoxHeaderRoundTrip(c: seq<byte>, p: nat, h: BoxHeader)
    requires Encodable(h) && At(c, p, EncodeBoxHeader(h))
    ensures Decodes(BoxHeaderAt(c, p), h, p + h.offset)
  {
    assert Pow256(4) == 256 * 256 * 256 * 256;
    if h.offset == 8 {
      Peel(c, p, ToBigEndian(h.size, 4), h.boxType);
      IntAtEncoded(c, p, h.size, 4);
    } else {
      Peel(c, p, ToBigEndian(1, 4) + h.boxType, ToBigEndian(h.size, 8));
      Peel(c, p, ToBigEndian(1, 4), h.boxType);
      IntAtEncoded(c, p, 1, 4);
      IntAtEncoded(c, p + 8, h.size, 8);
    }
  }

  // ---------------------------------------------------------------------------
  // Box decoders: `FTYPBox`, `MVHDBox`, `MOOVBox`

  /** A box constructor either takes the header it is given (`box_meta`) or
      reads one first. */
  function HeaderOrRead(c: seq<byte>, p: nat, meta: Option<BoxHeader>): Result<Parsed<BoxHeader>> {
    match meta
    case Some(h) => Success(Parsed(h, p))
    case None => BoxHeaderAt(c, p)
  }

  /** Where a box's fields start: after its header if the constructor reads it. */
  function FieldsStart(p: nat, meta: Option<BoxHeader>, h: BoxHeader): nat {
    if meta.None? then p + h.offset else p
  }

  datatype FtypBox = FtypBox(header: BoxHeader, majorBrand: seq<byte>, minorVersion: nat,
                             compatibleBrands: seq<seq<byte>>)

  /** `compatible_brands_size // 4` as a loop count: the number of whole 4-byte
      brands after the major brand and minor version, and none when the box is
      too small to hold even those. */
  function BrandCount(h: BoxHeader): (count: nat)
    ensures h.size >= h.offset + 8 ==> h.offset + 8 + 4 * count <= h.size < h.offset + 8 + 4 * (count + 1)
    ensures h.size < h.offset + 8 ==> count == 0
  {
    if h.size < h.offset + 8 then 0 else (h.size - h.offset - 8) / 4
  }

  /** `count` successive `read_str(4)` calls from `p`. */
  function TagsAt(c: seq<byte>, p: nat, count: nat): (r: Result<Parsed<seq<seq<byte>>>>)
    ensures r.Success? <==> count == 0 || p + 4 * count <= |c|
    ensures r.Failure? ==> r.error == ShortRead
    ensures r.Success? ==>
      && |r.value.value| == count
      && r.value.next == p + 4 * count
      && forall i :: 0 <= i < count ==> r.value.value[i] == c[p + 4 * i..p + 4 * i + 4]
    decreases count
  {
    if count == 0 then Success(Parsed([], p))
    else
      var tag :- TagAt(c, p, 4);
      var rest :- TagsAt(c, tag.next, count - 1);
      assert forall i :: 1 <= i < count ==> p + 4 * i == tag.next + 4 * (i - 1);
      Success(Parsed([tag.value] + rest.value, rest.next))
  }

  /** What `FTYPBox(reader, box_meta)` decodes at `p`. */
  function FtypAt(c: seq<byte>, p: nat, meta: Option<BoxHeader>): (r: Result<Parsed<FtypBox>>)
    ensures r.Success? ==>
      var f := r.value.value;
      && f.header.boxType == FTYP
      && |f.compatibleBrands| == BrandCount(f.header)
      && r.value.next == FieldsStart(p, meta, f.header) + 8 + 4 * BrandCount(f.header)
  {
    var h :- HeaderOrRead(c, p, meta);
    if h.value.boxType != FTYP then Failure(UnexpectedBoxType(FTYP, h.value.boxType))
    else
      var major :- TagAt(c, h.next, 4);
      var minor :- IntAt(c, major.next, 4);
      var brands :- TagsAt(c, minor.next, BrandCount(h.value));
      Success(Parsed(FtypBox(h.value, major.value, minor.value, brands.value), brands.next))
  }

  datatype MvhdBox = MvhdBox(header: BoxHeader, version: nat, flags: nat,
                             creationTime: nat, modificationTime: nat,
                             timeScale: nat, duration: nat,
                             suggestedRate: FixedPoint, suggestedVolume: FixedPoint)

  /** The reserved, matrix, pre-defined and next-track-id fields that a
      version-0 movie header skips without decoding (10 + 36 + 24 + 4 bytes). */
  const MVHD_SKIPPED_BYTES: nat := 74

  /** What `MVHDBox(reader, box_meta)` decodes at `p`. */
  function MvhdAt(c: seq<byte>, p: nat, meta: Option<BoxHeader>): (r: Result<Parsed<MvhdBox>>)
    ensures r.Success? ==>
      var m := r.value.value;
      var start := FieldsStart(p, meta, m.header);
      && m.header.boxType == MVHD && m.version == 0 && m.timeScale > 0
      && start + 26 <= |c|
      && r.value.next == Min(start + 100, |c|)
  {
    var h :- HeaderOrRead(c, p, meta);
    if h.value.boxType != MVHD then Failure(UnexpectedBoxType(MVHD, h.value.boxType))
    else
      var version :- IntAt(c, h.next, 1);
      if version.value != 0 then Failure(UnsupportedVersion(version.value))
      else
        var flags :- IntAt(c, version.next, 3);
        var creation :- IntAt(c, flags.next, 4);
        var modification :- IntAt(c, creation.next, 4);
        MvhdTimingAt(c, modification.next, h.value, flags.value, creation.value, modification.value)
  }

  /** The rest of a version-0 movie header, from its time scale on, completing
      the fields decoded before it. */
  function MvhdTimingAt(c: seq<byte>, q: nat, h: BoxHeader, flags: nat, creation: nat, modification: nat)
    : (r: Result<Parsed<MvhdBox>>)
    ensures r.Success? ==>
      var m := r.value.value;
      && m.header == h && m.version == 0 && m.timeScale > 0
      && q + 14 <= |c|
      && r.value.next == Min(q + 88, |c|)
  {
    var timeScale :- IntAt(c, q, 4);
    var duration :- IntAt(c, timeScale.next, 4);
    // `scaled_duration = duration / time_scale` raises before anything else is read
    if timeScale.value == 0 then Failure(ZeroTimeScale)
    else
      var rate :- FixedAt(c, duration.next, 2, 2);
      var volume :- FixedAt(c, rate.next, 1, 1);
      Success(Parsed(MvhdBox(h, 0, flags, creation, modification, timeScale.value, duration.value,
                             rate.value, volume.value),
                     Min(volume.next + MVHD_SKIPPED_BYTES, |c|)))
  }

  datatype MoovBox = MoovBox(header: BoxHeader, mvhd: MvhdBox)

  /** What `MOOVBox(reader, box_meta)` decodes at `p`: the header, then the
      movie header box that must come first inside it. */
  function MoovAt(c: seq<byte>, p: nat, meta: Option<BoxHeader>): (r: Result<Parsed<MoovBox>>)
    ensures r.Success? ==> r.value.value.header.boxType == MOOV
  {
    var h :- HeaderOrRead(c, p, meta);
    if h.value.boxType != MOOV then Failure(UnexpectedBoxType(MOOV, h.value.boxType))
    else
      var mvhd :- MvhdAt(c, h.next, None);
      Success(Parsed(MoovBox(h.value, mvhd.value), mvhd.next))
  }

  // ---------------------------------------------------------------------------
  // Top level: `find_moov_box` and `parse`

  /** What `find_moov_box` returns when it starts at `p`: read headers, skipping
      each non-"moov" box by `box_size - offset` bytes. */
  function FindMoovAt(c: seq<byte>, p: nat): (r: Result<Parsed<BoxHeader>>)
    ensures r.Success? ==> r.value.value.boxType == MOOV && p < r.value.next <= |c|
    decreases |c| - p
  {
    match BoxHeaderAt(c, p)
    case Failure(e) => Failure(e)
    case Success(h) =>
      if h.value.boxType == MOOV then Success(h)
      else if h.value.size < h.value.offset then Failure(NegativeSkip(h.value.size, h.value.offset))
      else FindMoovAt(c, Min(h.next + (h.value.size - h.value.offset), |c|))
  }

  datatype Mp4File = Mp4File(ftyp: FtypBox, moov: MoovBox)

  /** What `parse` decodes from `p`: the leading file-type box, then the first
      movie box after it. */
  function ParseAt(c: seq<byte>, p: nat): Result<Parsed<Mp4File>> {
    var ftyp :- FtypAt(c, p, None);
    var moovHeader :- FindMoovAt(c, ftyp.next);
    var moov :- MoovAt(c, moovHeader.next, Some(moovHeader.value));
    Success(Parsed(Mp4File(ftyp.value, moov.value), moov.next))
  }

  // ---------------------------------------------------------------------------
  // Encoders: what a well-formed file holds, and what the decoders read back

  /** Tags written one after another. */
  function Concat(tags: seq<seq<byte>>): (bs: seq<byte>)
    ensures (forall i :: 0 <= i < |tags| ==> |tags[i]| == 4) ==> |bs| == 4 * |tags|
  {
    if tags == [] then [] else tags[0] + Concat(tags[1..])
  }

  lemma {:induction false} TagAtEncoded(c: seq<byte>, q: nat, tag: seq<byte>)
    requires At(c, q, tag)
    ensures Decodes(TagAt(c, q, |tag|), tag, q + |tag|)
  {
  }

  lemma {:induction false} TagsRoundTrip(c: seq<byte>, q: nat, tags: seq<seq<byte>>)
    requires forall i :: 0 <= i < |tags| ==> |tags[i]| == 4
    requires At(c, q, Concat(tags))
    ensures Decodes(TagsAt(c, q, |tags|), tags, q + 4 * |tags|)
    decreases |tags|
  {
    if tags != [] {
      Peel(c, q, tags[0], Concat(tags[1..]));
      TagAtEncoded(c, q, tags[0]);
      TagsRoundTrip(c, q + 4, tags[1..]);
      assert [tags[0]] + tags[1..] == tags;
    }
  }

  /** A file-type box whose declared size covers exactly its brands. */
  predicate FtypEncodable(f: FtypBox) {
    && Encodable(f.header) && f.header.boxType == FTYP
    && |f.majorBrand| == 4 && f.minorVersion < Pow256(4)
    && (forall i :: 0 <= i < |f.compatibleBrands| ==> |f.compatibleBrands[i]| == 4)
    && f.header.size == f.header.offset + 8 + 4 * |f.compatibleBrands|
  }

  function EncodeFtyp(f: FtypBox): (bs: seq<byte>)
    requires FtypEncodable(f)
    ensures |bs| == f.header.size
  {
    EncodeBoxHeader(f.header) + f.majorBrand + ToBigEndian(f.minorVersion, 4) + Concat(f.compatibleBrands)
  }

  /** Decoding an encoded file-type box gives it back and consumes exactly the box. */
  lemma {:induction false} FtypRoundTrip(c: seq<byte>, p: nat, f: FtypBox)
    requires FtypEncodable(f) && At(c, p, EncodeFtyp(f))
    ensures Decodes(FtypAt(c, p, None), f, p + f.header.size)
  {
    var h := f.header;
    var head := EncodeBoxHeader(h);
    var minor := ToBigEndian(f.minorVersion, 4);
    Peel(c, p, head + f.majorBrand + minor, Concat(f.compatibleBrands));
    Peel(c, p, head + f.majorBrand, minor);
    Peel(c, p, head, f.majorBrand);
    BoxHeaderRoundTrip(c, p, h);
    TagAtEncoded(c, p + h.offset, f.majorBrand);
    IntAtEncoded(c, p + h.offset + 4, f.minorVersion, 4);
    assert BrandCount(h) == |f.compatibleBrands|;
    TagsRoundTrip(c, p + h.offset + 8, f.compatibleBrands);
  }

  /** A version-0 movie header box of exactly 100 bytes after its header, whose
      fields fit their widths. */
  predicate MvhdEncodable(m: MvhdBox) {
    && Encodable(m.header) && m.header.boxType == MVHD && m.header.size == m.header.offset + 100
    && m.version == 0 && m.flags < Pow256(3)
    && m.creationTime < Pow256(4) && m.modificationTime < Pow256(4)
    && 0 < m.timeScale < Pow256(4) && m.duration < Pow256(4)
    && m.suggestedRate.whole < Pow256(2) && m.suggestedRate.fraction < Pow256(2)
    && m.suggestedVolume.whole < Pow256(1) && m.suggestedVolume.fraction < Pow256(1)
  }

  /** The decoded fields of a movie header, in the order they are read. */
  function EncodeMvhdFields(m: MvhdBox): (bs: seq<byte>)
    requires MvhdEncodable(m)
    ensures |bs| == 26
  {
    ToBigEndian(m.version, 1) + (ToBigEndian(m.flags, 3)
      + (ToBigEndian(m.creationTime, 4) + (ToBigEndian(m.modificationTime, 4)
      + (ToBigEndian(m.timeScale, 4) + (ToBigEndian(m.duration, 4)
      + (EncodeFixed(m.suggestedRate, 2, 2) + EncodeFixed(m.suggestedVolume, 1, 1)))))))
  }

  function EncodeFixed(v: FixedPoint, a: nat, b: nat): (bs: seq<byte>)
    requires v.whole < Pow256(a) && v.fraction < Pow256(b)
    ensures |bs| == a + b
  {
    ToBigEndian(v.whole, a) + ToBigEndian(v.fraction, b)
  }

  function EncodeMvhd(m: MvhdBox, skipped: seq<byte>): (bs: seq<byte>)
    requires MvhdEncodable(m) && |skipped| == MVHD_SKIPPED_BYTES
    ensures |bs| == m.header.size
  {
    EncodeBoxHeader(m.header) + EncodeMvhdFields(m) + skipped
  }

  lemma {:induction false} FixedAtEncoded(c: seq<byte>, q: nat, v: FixedPoint, a: nat, b: nat)
    requires v.whole < Pow256(a) && v.fraction < Pow256(b)
    requires At(c, q, EncodeFixed(v, a, b))
    ensures Decodes(FixedAt(c, q, a, b), v, q + a + b)
  {
    var whole, fraction := ToBigEndian(v.whole, a), ToBigEndian(v.fraction, b);
    Peel(c, q, whole, fraction);
    assert c[q..q + a] == whole;
    assert c[q + a..q + a + b] == fraction;
    BigEndianAtSlice(c, q, a);
    BigEndianAtSlice(c, q + a, b);
  }

  /** Each field of an encoded movie header decodes back from its own offset. */
  lemma {:induction false} MvhdFieldsEncoded(c: seq<byte>, q: nat, m: MvhdBox)
    requires MvhdEncodable(m) && At(c, q, EncodeMvhdFields(m))
    ensures Decodes(IntAt(c, q, 1), m.version, q + 1)
    ensures Decodes(IntAt(c, q + 1, 3), m.flags, q + 4)
    ensures Decodes(IntAt(c, q + 4, 4), m.creationTime, q + 8)
    ensures Decodes(IntAt(c, q + 8, 4), m.modificationTime, q + 12)
    ensures Decodes(IntAt(c, q + 12, 4), m.timeScale, q + 16)
    ensures Decodes(IntAt(c, q + 16, 4), m.duration, q + 20)
    ensures Decodes(FixedAt(c, q + 20, 2, 2), m.suggestedRate, q + 24)
    ensures Decodes(FixedAt(c, q + 24, 1, 1), m.suggestedVolume, q + 26)
  {
    var rate := EncodeFixed(m.suggestedRate, 2, 2);
    var volume := EncodeFixed(m.suggestedVolume, 1, 1);
    var duration := ToBigEndian(m.duration, 4) + (rate + volume);
    var timeScale := ToBigEndian(m.timeScale, 4) + duration;
    var modification := ToBigEndian(m.modificationTime, 4) + timeScale;
    var creation := ToBigEndian(m.creationTime, 4) + modification;
    var flags := ToBigEndian(m.flags, 3) + creation;
    Peel(c, q, ToBigEndian(m.version, 1), flags);
    Peel(c, q + 1, ToBigEndian(m.flags, 3), creation);
    Peel(c, q + 4, ToBigEndian(m.creationTime, 4), modification);
    Peel(c, q + 8, ToBigEndian(m.modificationTime, 4), timeScale);
    Peel(c, q + 12, ToBigEndian(m.timeScale, 4), duration);
    Peel(c, q + 16, ToBigEndian(m.duration, 4), rate + volume);
    Peel(c, q + 20, rate, volume);
    IntAtEncoded(c, q, m.version, 1);
    IntAtEncoded(c, q + 1, m.flags, 3);
    IntAtEncoded(c, q + 4, m.creationTime, 4);
    IntAtEncoded(c, q + 8, m.modificationTime, 4);
    IntAtEncoded(c, q + 12, m.timeScale, 4);
    IntAtEncoded(c, q + 16, m.duration, 4);
    FixedAtEncoded(c, q + 20, m.suggestedRate, 2, 2);
    FixedAtEncoded(c, q + 24, m.suggestedVolume, 1, 1);
  }

  /** Decoding an encoded version-0 movie header box gives its fields back and
      consumes exactly the box: 100 bytes after its header. */
  lemma {:induction false} MvhdRoundTrip(c: seq<byte>, p: nat, m: MvhdBox, skipped: seq<byte>)
    requires MvhdEncodable(m) && |skipped| == MVHD_SKIPPED_BYTES
    requires At(c, p, EncodeMvhd(m, skipped))
    ensures Decodes(MvhdAt(c, p, None), m, p + m.header.size)
  {
    var h := m.header;
    Peel(c, p, EncodeBoxHeader(h) + EncodeMvhdFields(m), skipped);
    Peel(c, p, EncodeBoxHeader(h), EncodeMvhdFields(m));
    BoxHeaderRoundTrip(c, p, h);
    MvhdFieldsEncoded(c, p + h.offset, m);
  }

  // ---------------------------------------------------------------------------
  // The box sequence `find_moov_box` walks over

  /** An encoded box reads back its header, and whatever follows it starts
      where its declared size says. */
  lemma {:induction false} EncodedBoxAt(c: seq<byte>, p: nat, h: BoxHeader, payload: seq<byte>)
    requires Encodable(h) && h.size == h.offset + |payload|
    requires At(c, p, EncodeBoxHeader(h) + payload)
    ensures Decodes(BoxHeaderAt(c, p), h, p + h.offset) && p + h.size <= |c|
  {
    Peel(c, p, EncodeBoxHeader(h), payload);
    BoxHeaderRoundTrip(c, p, h);
  }

  /** `hs` are the headers of boxes other than "moov" laid out one after the
      other from `p` to `end`: each reads back where the previous box ends, and
      each declared size covers at least its header and fits in `c`. */
  predicate SkippableAt(c: seq<byte>, p: nat, hs: seq<BoxHeader>, end: nat)
    decreases |hs|
  {
    if |hs| == 0 then p == end
    else
      && hs[0].boxType != MOOV
      && hs[0].offset <= hs[0].size && p + hs[0].size <= |c|
      && Decodes(BoxHeaderAt(c, p), hs[0], p + hs[0].offset)
      && SkippableAt(c, p + hs[0].size, hs[1..], end)
  }

  /** Fewer than 8 bytes left: no header can be read. */
  lemma {:induction false} FindMoovAtEnd(c: seq<byte>, p: nat)
    requires |c| < p + 8
    ensures FindMoovAt(c, p) == Failure(ShortRead)
  {
  }

  /** A header other than "moov" whose declared size fits sends the search
      exactly to the end of its box. */
  lemma {:induction false} FindMoovSkipsOne(c: seq<byte>, p: nat, h: BoxHeader)
    requires Decodes(BoxHeaderAt(c, p), h, p + h.offset)
    requires h.boxType != MOOV && h.offset <= h.size && p + h.size <= |c|
    ensures FindMoovAt(c, p) == FindMoovAt(c, p + h.size)
  {
  }

  /** Boxes other than "moov" are skipped whole: the search carries on exactly
      where they end. */
  lemma {:induction false} FindMoovSkips(c: seq<byte>, p: nat, hs: seq<BoxHeader>, end: nat)
    requires SkippableAt(c, p, hs, end)
    ensures FindMoovAt(c, p) == FindMoovAt(c, end)
    decreases |hs|
  {
    if |hs| > 0 {
      FindMoovSkipsOne(c, p, hs[0]);
      FindMoovSkips(c, p + hs[0].size, hs[1..], end);
    }
  }

  /** The search returns the header of the first "moov" box, at `q`, with the
      cursor just after that header. */
  lemma {:induction false} FindMoovFindsFirst(c: seq<byte>, p: nat, hs: seq<BoxHeader>, q: nat, moov: BoxHeader)
    requires SkippableAt(c, p, hs, q)
    requires Encodable(moov) && moov.boxType == MOOV && At(c, q, EncodeBoxHeader(moov))
    ensures Decodes(FindMoovAt(c, p), moov, q + moov.offset)
  {
    FindMoovSkips(c, p, hs, q);
    BoxHeaderRoundTrip(c, q, moov);
  }

  /** With no "moov" box before fewer than 8 trailing bytes, the search runs off
      the end: the next header read comes up short. */
  lemma {:induction false} FindMoovRunsOut(c: seq<byte>, p: nat, hs: seq<BoxHeader>, end: nat)
    requires SkippableAt(c, p, hs, end) && |c| < end + 8
    ensures FindMoovAt(c, p) == Failure(ShortRead)
  {
    FindMoovSkips(c, p, hs, end);
    FindMoovAtEnd(c, end);
  }

  /** A box that declares itself smaller than its own header (such as size 0,
      "extends to the end of the file") cannot be skipped. */
  lemma {:induction false} FindMoovNegativeSkip(c: seq<byte>, p: nat, h: BoxHeader)
    requires Encodable(h) && h.boxType != MOOV && h.size < h.offset
    requires At(c, p, EncodeBoxHeader(h))
    ensures FindMoovAt(c, p) == Failure(NegativeSkip(h.size, h.offset))
  {
    BoxHeaderRoundTrip(c, p, h);
  }

  // ---------------------------------------------------------------------------
  // Whole files

  /** A file holding a file-type box at `p`, boxes other than "moov" from
      where it ends (`afterFtyp`), then at `q` a "moov" box whose first child,
      at `mvhdAt`, is a version-0 movie header, decodes to exactly those boxes,
      and the cursor ends just after the movie header. */
  lemma {:induction false} ParseRoundTrip(c: seq<byte>, p: nat, f: FtypBox, afterFtyp: nat, others: seq<BoxHeader>,
                                          q: nat, moov: BoxHeader, mvhdAt: nat, m: MvhdBox, skipped: seq<byte>)
    requires FtypEncodable(f) && At(c, p, EncodeFtyp(f)) && afterFtyp == p + f.header.size
    requires SkippableAt(c, afterFtyp, others, q)
    requires Encodable(moov) && moov.boxType == MOOV && At(c, q, EncodeBoxHeader(moov)) && mvhdAt == q + moov.offset
    requires MvhdEncodable(m) && |skipped| == MVHD_SKIPPED_BYTES && At(c, mvhdAt, EncodeMvhd(m, skipped))
    ensures Decodes(ParseAt(c, p), Mp4File(f, MoovBox(moov, m)), mvhdAt + m.header.size)
  {
    FtypRoundTrip(c, p, f);
    FindMoovFindsFirst(c, afterFtyp, others, q, moov);
    MvhdRoundTrip(c, mvhdAt, m, skipped);
    ParseOfParts(c, p, f, afterFtyp, moov, mvhdAt, m, mvhdAt + m.header.size);
  }

  /** `parse` chains its three steps: the file-type box, the search, and the
      movie box read with the header the search found. */
  lemma {:induction false} ParseOfParts(c: seq<byte>, p: nat, f: FtypBox, afterFtyp: nat, moov: BoxHeader,
                                        afterMoov: nat, m: MvhdBox, afterMvhd: nat)
    requires Decodes(FtypAt(c, p, None), f, afterFtyp)
    requires Decodes(FindMoovAt(c, afterFtyp), moov, afterMoov)
    requires Decodes(MvhdAt(c, afterMoov, None), m, afterMvhd)
    ensures Decodes(ParseAt(c, p), Mp4File(f, MoovBox(moov, m)), afterMvhd)
  {
  }

  const ISOM: seq<byte> := [0x69, 0x73, 0x6F, 0x6D]

  /** The 20-byte file-type box: brand "isom", minor version 0, one compatible brand "isom". */
  const SAMPLE_FTYP := FtypBox(BoxHeader(20, FTYP, 8), ISOM, 0, [ISOM])

  /** A movie header with time scale 1000 and duration 5000 (five seconds). */
  function SampleMvhd(creationTime: nat, modificationTime: nat): MvhdBox {
    MvhdBox(BoxHeader(108, MVHD, 8), 0, 0, creationTime, modificationTime, 1000, 5000,
            FixedPoint(1, 0), FixedPoint(1, 0))
  }

  const SAMPLE_MOOV := BoxHeader(116, MOOV, 8)

  /** The sample boxes fit the layouts their encoders write. */
  lemma {:induction false} SampleEncodable(creationTime: nat, modificationTime: nat)
    requires creationTime < Pow256(4) && modificationTime < Pow256(4)
    ensures FtypEncodable(SAMPLE_FTYP) && Encodable(SAMPLE_MOOV)
    ensures MvhdEncodable(SampleMvhd(creationTime, modificationTime))
  {
    assert Pow256(4) == 256 * 256 * 256 * 256;
  }

  /** A file-type box followed at once by a "moov" box that starts with a movie
      header of time scale 1000 and duration 5000 decodes to those boxes,
      whatever follows the movie header. */
  lemma {:induction false} SampleFileParses(creationTime: nat, modificationTime: nat, skipped: seq<byte>, rest: seq<byte>)
    requires creationTime < Pow256(4) && modificationTime < Pow256(4) && |skipped| == MVHD_SKIPPED_BYTES
    ensures
      var m := SampleMvhd(creationTime, modificationTime);
      var c := EncodeFtyp(SAMPLE_FTYP) + EncodeBoxHeader(SAMPLE_MOOV) + EncodeMvhd(m, skipped) + rest;
      Decodes(ParseAt(c, 0), Mp4File(SAMPLE_FTYP, MoovBox(SAMPLE_MOOV, m)), 136)
  {
    var m := SampleMvhd(creationTime, modificationTime);
    SampleEncodable(creationTime, modificationTime);
    var ftyp, moov, mvhd := EncodeFtyp(SAMPLE_FTYP), EncodeBoxHeader(SAMPLE_MOOV), EncodeMvhd(m, skipped);
    var c := ftyp + moov + mvhd + rest;
    assert At(c, 0, c);
    Peel(c, 0, ftyp + moov + mvhd, rest);
    Peel(c, 0, ftyp + moov, mvhd);
    Peel(c, 0, ftyp, moov);
    ParseRoundTrip(c, 0, SAMPLE_FTYP, 20, [], 20, SAMPLE_MOOV, 28, m, skipped);
  }

  /** A file that ends right after its file-type box holds no "moov" box: the
      search for it fails with a short read rather than yielding an empty result. */
  lemma {:induction false} FtypOnlyFileFails(f: FtypBox)
    requires FtypEncodable(f)
    ensures ParseAt(EncodeFtyp(f), 0) == Failure(ShortRead)
  {
    var c := EncodeFtyp(f);
    assert At(c, 0, c);
    FtypRoundTrip(c, 0, f);
    FindMoovRunsOut(c, |c|, [], |c|);
  }

  /** A movie header whose version byte is not 0 is rejected right after that
      byte, before its flags are read. */
  lemma {:induction false} MvhdVersionRejected(c: seq<byte>, p: nat, h: BoxHeader, version: byte)
    requires Encodable(h) && h.boxType == MVHD && version != 0
    requires At(c, p, EncodeBoxHeader(h) + [version])
    ensures MvhdAt(c, p, None) == Failure(UnsupportedVersion(version))
  {
    Peel(c, p, EncodeBoxHeader(h), [version]);
    BoxHeaderRoundTrip(c, p, h);
    var q := p + h.offset;
    assert c[q] == c[q..q + 1][0] == version;
    assert BigEndianAt(c, q, 1) == version;
  }
}
